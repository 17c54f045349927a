/** The command parser of pubsub_tcp.go:283-361 over a buffered reader. */
module Commands {
  import opened Decimal
  import opened CommandSpec

  /** A reader: what is left is what has not been read yet. */
  class Reader {
    var left: string

    constructor (input: string)
      ensures left == input
    {
      left := input;
    }

    method ReadBytes(delim: char) returns (line: string, err: Error)
      modifies this
      ensures delim == '\n' ==> (line, err, left) == Line(old(left))
      ensures old(left) == line + left && (err == NoError ==> line != "" && line[|line| - 1] == delim)
    {
      var i := 0;
      while i < |left| && left[i] != delim
        invariant 0 <= i <= |left| && delim !in left[..i]
      {
        i := i + 1;
      }
      FoundAt(left, delim, i);
      if i < |left| {
        line, err := left[..i + 1], NoError;
        left := left[i + 1..];
      } else {
        line, err := left, EOF;
        left := "";
      }
    }
  }

  method ParseCmdSize(rd: Reader, prefix: char) returns (n: int, err: Error)
    modifies rd
    ensures (n, err, rd.left) == ParseSize(old(rd.left), prefix)
  {
    var cs;
    cs, err := rd.ReadBytes('\n');
    if err != NoError {
      return 0, err;
    }
    var csl := |cs|;
    if csl <= 3 || cs[0] != prefix || cs[csl - 2] != '\r' {
      return 0, CmdFmtErr;
    }
    var cmdSize := Atoi(cs[1..csl - 2]);
    if cmdSize == None {
      return 0, CmdFmtErr;
    }
    return cmdSize.value, NoError;
  }

  method ParseCmdData(rd: Reader, cmdLen: int) returns (data: string, err: Error)
    modifies rd
    ensures (data, err, rd.left) == ParseData(old(rd.left), cmdLen)
  {
    var d;
    d, err := rd.ReadBytes('\n');
    if err != NoError {
      return "", err;
    }
    var dl := |d|;
    if dl != cmdLen + 2 {
      return "", CmdFmtErr;
    }
    if dl < 2 {
      return "", PanicIndex;
    }
    if d[dl - 2] != '\r' {
      return "", CmdFmtErr;
    }
    return d[..dl - 2], NoError;
  }

  /** What is still to come once `args` have been read and `n` arguments are left. */
  ghost function Ahead(args: seq<string>, s: string, n: nat): (seq<string>, Error, string) {
    var (more, err, rest) := ParseArgs(s, n);
    (if err == NoError then args + more else [], err, rest)
  }

  lemma AheadStep(args: seq<string>, s: string, n: nat)
    requires n > 0
    ensures var (arg, err, rest) := ParseArg(s);
      Ahead(args, s, n) == if err == NoError then Ahead(args + [arg], rest, n - 1) else ([], err, rest)
  {
    hide ParseArg;
    var (arg, err, rest) := ParseArg(s);
    assert args + ([arg] + ParseArgs(rest, n - 1).0) == args + [arg] + ParseArgs(rest, n - 1).0;
  }

  /** parseCmd; `room` is the greatest number of arguments for which a slice can be allocated. */
  method ParseCommand(rd: Reader, room: nat) returns (args: seq<string>, err: Error)
    modifies rd
    ensures (args, err, rd.left) == ParseCmd(old(rd.left), room)
    ensures err == NoError ==> exists cmd :: IsCommand(cmd, args) && old(rd.left) == cmd + rd.left
  {
    hide ParseSize, ParseData, IsCommand;
    ghost var input := rd.left;
    var argNum;
    argNum, err := ParseCmdSize(rd, '*');
    if err != NoError {
      return [], err;
    }
    if argNum < 1 {
      return [], CmdFmtErr;
    }
    if argNum > room {
      return [], PanicMake;
    }
    args := [];
    ghost var start := rd.left;
    var i := 0;
    while i < argNum
      invariant 0 <= i <= argNum
      invariant Ahead(args, rd.left, argNum - i) == Ahead([], start, argNum)
    {
      AheadStep(args, rd.left, argNum - i);
      var cmdLen, d;
      cmdLen, err := ParseCmdSize(rd, '$');
      if err != NoError {
        return [], err;
      }
      d, err := ParseCmdData(rd, cmdLen);
      if err != NoError {
        return [], err;
      }
      args := args + [d];
      i := i + 1;
    }
    assert [] + ParseArgs(start, argNum).0 == ParseArgs(start, argNum).0;
    assert args + [] == args;
    ParsesExactly(input, room, args, rd.left);
    return args, NoError;
  }

  // ----- the arguments of a subscription -----

  /** A 64-bit int after doubling, as the source's `*=` wraps it. */
  function Doubled(n: int): int
    requires MIN_INT <= n <= MAX_INT
  {
    var d := 2 * n;
    if d > MAX_INT then d - 0x1_0000_0000_0000_0000
    else if d < MIN_INT then d + 0x1_0000_0000_0000_0000
    else d
  }

  datatype Subscription = Subscription(key: string, mid: int, heartbeat: int, token: string)

  /** The checks of SubscribeTCPHandle on `args`: key, message id, and optionally heartbeat and token. */
  method ReadSubscription(args: seq<string>, default: int) returns (r: Option<Subscription>)
    requires MIN_INT <= default <= MAX_INT
    ensures |args| < 2 ==> r == None
    ensures |args| == 2 ==>
      (r.Some? <==>
        && Atoi(args[1]).Some?
        && (1 <= default < 0x4000_0000_0000_0000 || -0x8000_0000_0000_0000 < default < -0x4000_0000_0000_0000))
    ensures |args| >= 3 ==>
      (r.Some? <==>
        && Atoi(args[1]).Some? && Atoi(args[2]).Some?
        && var n := Atoi(args[2]).value;
           1 <= n < 0x4000_0000_0000_0000 || -0x8000_0000_0000_0000 < n < -0x4000_0000_0000_0000)
    ensures r.Some? ==> r.value.key == args[0] && Some(r.value.mid) == Atoi(args[1])
    ensures r.Some? ==>
      var n := if |args| == 2 then default else Atoi(args[2]).value;
      r.value.heartbeat == if n > 0 then 2 * n else 2 * n + 0x1_0000_0000_0000_0000
    ensures r.Some? ==> r.value.token == if |args| >= 4 then args[3] else ""
  {
    if |args| < 2 {
      return None;
    }
    var mid := Atoi(args[1]);
    if mid == None {
      return None;
    }
    var heartbeat := default;
    if |args| > 2 {
      var i := Atoi(args[2]);
      if i == None {
        return None;
      }
      heartbeat := i.value;
    }
    HeartbeatAccepted(heartbeat);
    heartbeat := Doubled(heartbeat);
    if heartbeat <= 0 {
      return None;
    }
    var token := if |args| > 3 then args[3] else "";
    return Some(Subscription(args[0], mid.value, heartbeat, token));
  }

  /** Which heartbeats are accepted: the positive ones up to half the int range, and, because the
      doubling wraps, also those below minus half the range except the least int. */
  lemma HeartbeatAccepted(n: int)
    requires MIN_INT <= n <= MAX_INT
    ensures Doubled(n) > 0 <==>
      1 <= n < 0x4000_0000_0000_0000 || -0x8000_0000_0000_0000 < n < -0x4000_0000_0000_0000
    ensures Doubled(n) > 0 ==> Doubled(n) == if n > 0 then 2 * n else 2 * n + 0x1_0000_0000_0000_0000
  {
  }
}
