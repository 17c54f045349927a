/** The wire format of commands (pubsub_tcp.go:283-361): what the parser computes from the bytes it
    has not read yet, the printer a client uses, and the grammar that links them. */
module CommandSpec {
  import opened Decimal
  import opened Sequences

  datatype Error = NoError | EOF | CmdFmtErr
    | PanicIndex  // the source indexes a slice out of range
    | PanicMake   // the source cannot allocate the slice of arguments

  // ----- the parser -----

  /** Where the first `c` stands in `s`, or |s| if there is none. */
  function Find(s: string, c: char): (i: nat)
    ensures i <= |s| && c !in s[..i] && (i < |s| ==> s[i] == c)
  {
    if s == "" || s[0] == c then 0
    else
      assert s[..Find(s[1..], c) + 1] == [s[0]] + s[1..][..Find(s[1..], c)];
      Find(s[1..], c) + 1
  }

  /** ReadBytes('\n'): the line with its newline, and what follows; without a newline everything
      is consumed. */
  function Line(s: string): (string, Error, string) {
    var i := Find(s, '\n');
    if i < |s| then (s[..i + 1], NoError, s[i + 1..]) else (s, EOF, "")
  }

  function ParseSize(s: string, prefix: char): (int, Error, string) {
    var (cs, err, rest) := Line(s);
    if err != NoError then (0, err, rest)
    else if |cs| <= 3 || cs[0] != prefix || cs[|cs| - 2] != '\r' then (0, CmdFmtErr, rest)
    else
      match Atoi(cs[1..|cs| - 2])
      case None => (0, CmdFmtErr, rest)
      case Some(n) => (n, NoError, rest)
  }

  function ParseData(s: string, cmdLen: int): (string, Error, string) {
    var (d, err, rest) := Line(s);
    if err != NoError then ("", err, rest)
    else if |d| != cmdLen + 2 then ("", CmdFmtErr, rest)
    else if |d| < 2 then ("", PanicIndex, rest)
    else if d[|d| - 2] != '\r' then ("", CmdFmtErr, rest)
    else (d[..|d| - 2], NoError, rest)
  }

  function ParseArg(s: string): (string, Error, string) {
    var (n, err, rest) := ParseSize(s, '$');
    if err != NoError then ("", err, rest) else ParseData(rest, n)
  }

  function ParseArgs(s: string, n: nat): (seq<string>, Error, string) {
    if n == 0 then ([], NoError, s)
    else
      var (arg, err, rest) := ParseArg(s);
      if err != NoError then ([], err, rest)
      else
        var (args, err', rest') := ParseArgs(rest, n - 1);
        if err' != NoError then ([], err', rest') else ([arg] + args, NoError, rest')
  }

  /** `room` is the greatest number of arguments for which a slice can be allocated. */
  function ParseCmd(s: string, room: nat): (seq<string>, Error, string) {
    var (n, err, rest) := ParseSize(s, '*');
    if err != NoError then ([], err, rest)
    else if n < 1 then ([], CmdFmtErr, rest)
    else if n > room then ([], PanicMake, rest)
    else ParseArgs(rest, n)
  }

  // ----- the grammar -----

  /** A number line: the prefix, any text that reads as `n`, and the line end. */
  ghost predicate IsSize(s: string, prefix: char, n: int) {
    |s| >= 3 && s == [prefix] + s[1..|s| - 2] + "\r\n" && Atoi(s[1..|s| - 2]) == Some(n)
  }

  ghost predicate IsArg(s: string, arg: string) {
    '\n' !in arg && exists size :: IsSize(size, '$', |arg|) && s == size + (arg + "\r\n")
  }

  ghost predicate IsArgs(s: string, args: seq<string>)
    decreases |args|
  {
    if args == [] then s == ""
    else exists first, more :: IsArg(first, args[0]) && IsArgs(more, args[1..]) && s == first + more
  }

  /** A well-formed command: the number of arguments, then each argument with its length. */
  ghost predicate IsCommand(s: string, args: seq<string>) {
    args != [] && exists size, body :: IsSize(size, '*', |args|) && IsArgs(body, args) && s == size + body
  }

  // ----- lines -----

  lemma FindIn(a: string, c: char, b: string)
    requires c !in a
    ensures Find(a + [c] + b, c) == |a|
  {
    var s := a + [c] + b;
    var i := Find(s, c);
    assert s[|a|] == c;
    assert forall k :: 0 <= k < |a| ==> s[k] == a[k] && a[k] in a;
    assert forall k :: 0 <= k < i ==> s[k] == s[..i][k] && s[k] in s[..i];
  }

  lemma FoundAt(s: string, c: char, i: nat)
    requires i <= |s| && c !in s[..i] && (i < |s| ==> s[i] == c)
    ensures Find(s, c) == i
  {
    if i < |s| {
      assert s == s[..i] + [c] + s[i + 1..];
      FindIn(s[..i], c, s[i + 1..]);
    } else {
      assert s[..i] == s;
    }
  }

  lemma LineOf(a: string, b: string)
    requires '\n' !in a
    ensures Line(a + "\n" + b) == (a + "\n", NoError, b)
  {
    FindIn(a, '\n', b);
  }

  lemma LineIs(s: string)
    requires Line(s).1 == NoError
    ensures var l := Line(s).0;
      s == l + Line(s).2 && l != "" && l[|l| - 1] == '\n' && '\n' !in l[..|l| - 1]
  {
    var i := Find(s, '\n');
    assert s[..i + 1][..i] == s[..i];
  }

  /** A number is a sign or a digit at its front and digits after that. */
  lemma NumberText(t: string)
    requires Atoi(t).Some?
    ensures t != "" && forall i :: 0 <= i < |t| ==> IsDigit(t[i]) || (i == 0 && (t[i] == '-' || t[i] == '+'))
  {
    hide Value;
    var body := if t != "" && (t[0] == '-' || t[0] == '+') then t[1..] else t;
    assert AllDigits(body);
    forall i | 0 <= i < |t|
      ensures IsDigit(t[i]) || (i == 0 && (t[i] == '-' || t[i] == '+'))
    {
      if body == t {
        assert IsDigit(body[i]);
      } else if i > 0 {
        assert t[i] == body[i - 1] && IsDigit(body[i - 1]);
      }
    }
  }

  lemma SizeAccepted(size: string, prefix: char, n: int, rest: string)
    requires IsSize(size, prefix, n) && prefix != '\n'
    ensures ParseSize(size + rest, prefix) == (n, NoError, rest)
  {
    hide Atoi;
    var t := size[1..|size| - 2];
    NumberText(t);
    var a := [prefix] + t + "\r";
    assert size + rest == a + "\n" + rest;
    LineOf(a, rest);
    assert a + "\n" == size && size[|size| - 2] == '\r';
  }

  lemma SizeSound(s: string, prefix: char) returns (size: string)
    requires ParseSize(s, prefix).1 == NoError
    ensures IsSize(size, prefix, ParseSize(s, prefix).0) && s == size + ParseSize(s, prefix).2
  {
    hide Atoi;
    LineIs(s);
    size := Line(s).0;
    assert size[|size| - 1] == '\n';
    assert size == [size[0]] + size[1..|size| - 2] + [size[|size| - 2], size[|size| - 1]];
  }

  /** The out-of-range index is reached exactly by the declared length -1 before an empty line; the
      lengths 0 and up never reach it. */
  lemma DataPanicsExactly(s: string, cmdLen: int)
    ensures ParseData(s, cmdLen).1 == PanicIndex <==> cmdLen == -1 && s != "" && s[0] == '\n'
  {
    if Line(s).1 == NoError {
      LineIs(s);
    }
    if s != "" && s[0] == '\n' {
      LineOf("", s[1..]);
      assert s == "" + "\n" + s[1..];
    }
  }

  lemma ArgAccepted(s: string, arg: string, rest: string)
    requires IsArg(s, arg)
    ensures ParseArg(s + rest) == (arg, NoError, rest)
  {
    hide IsSize, ParseSize;
    var size :| IsSize(size, '$', |arg|) && s == size + (arg + "\r\n");
    assert s + rest == size + (arg + "\r\n" + rest);
    SizeAccepted(size, '$', |arg|, arg + "\r\n" + rest);
    assert arg + "\r\n" + rest == (arg + "\r") + "\n" + rest;
    LineOf(arg + "\r", rest);
    assert (arg + "\r" + "\n")[..|arg|] == arg;
  }

  lemma ArgSound(s: string) returns (first: string)
    requires ParseArg(s).1 == NoError
    ensures IsArg(first, ParseArg(s).0) && s == first + ParseArg(s).2
  {
    hide IsSize, ParseSize;
    var size := SizeSound(s, '$');
    var (n, err, more) := ParseSize(s, '$');
    LineIs(more);
    var d, arg := Line(more).0, ParseArg(s).0;
    assert d == arg + "\r\n";
    assert arg == d[..|d| - 1][..|arg|];
    first := size + (arg + "\r\n");
    assert s == first + Line(more).2;
  }

  lemma {:induction false} ArgsAccepted(s: string, args: seq<string>, rest: string)
    requires IsArgs(s, args)
    ensures ParseArgs(s + rest, |args|) == (args, NoError, rest)
    decreases |args|
  {
    hide IsArg, ParseArg;
    if args == [] {
      assert s + rest == rest;
    } else {
      var first, more :| IsArg(first, args[0]) && IsArgs(more, args[1..]) && s == first + more;
      Associative(first, more, rest);
      ArgAccepted(first, args[0], more + rest);
      ArgsAccepted(more, args[1..], rest);
      assert [args[0]] + args[1..] == args;
    }
  }

  lemma {:induction false} ArgsSound(s: string, n: nat) returns (body: string)
    requires ParseArgs(s, n).1 == NoError
    ensures |ParseArgs(s, n).0| == n && IsArgs(body, ParseArgs(s, n).0) && s == body + ParseArgs(s, n).2
    decreases n
  {
    hide IsArg, ParseArg;
    if n == 0 {
      body := "";
    } else {
      var first := ArgSound(s);
      var more := ArgsSound(ParseArg(s).2, n - 1);
      body := first + more;
      assert ParseArgs(s, n).0[1..] == ParseArgs(ParseArg(s).2, n - 1).0;
    }
  }

  /** The parser succeeds exactly on input that begins with a well-formed command for which there is
      room; it returns that command's arguments and leaves exactly what follows it. */
  lemma ParsesExactly(s: string, room: nat, args: seq<string>, rest: string)
    ensures ParseCmd(s, room) == (args, NoError, rest) <==>
            |args| <= room && exists cmd :: IsCommand(cmd, args) && s == cmd + rest
  {
    hide IsSize, IsArgs, ParseSize, ParseArgs;
    if ParseCmd(s, room) == (args, NoError, rest) {
      var size := SizeSound(s, '*');
      var (n, err, more) := ParseSize(s, '*');
      var body := ArgsSound(more, n);
      assert IsCommand(size + body, args) && s == (size + body) + rest;
    }
    if |args| <= room && exists cmd :: IsCommand(cmd, args) && s == cmd + rest {
      var cmd :| IsCommand(cmd, args) && s == cmd + rest;
      var size, body :| IsSize(size, '*', |args|) && IsArgs(body, args) && cmd == size + body;
      assert s == size + (body + rest);
      SizeAccepted(size, '*', |args|, body + rest);
      ArgsAccepted(body, args, rest);
    }
  }

  // ----- the inputs on which the parser fails, by error -----

  lemma SizeFails(s: string, prefix: char)
    ensures ParseSize(s, prefix).1 in {NoError, EOF, CmdFmtErr}
    ensures ParseSize(s, prefix).1 == EOF <==> '\n' !in s
  {
    hide Atoi;
    LineFails(s);
  }

  lemma LineFails(s: string)
    ensures Line(s).1 == EOF <==> '\n' !in s
  {
    var i := Find(s, '\n');
    assert i == |s| ==> s[..i] == s;
  }

  /** Behind well-formed arguments, fewer than `n`, the input goes on with `tail`. */
  ghost predicate GoesOn(s: string, n: nat, tail: string) {
    exists body, args :: IsArgs(body, args) && |args| < n && s == body + tail
  }

  /** When the arguments are not all read, the failure is that of the argument at some `tail`. */
  lemma {:induction false} ArgsStop(s: string, n: nat) returns (tail: string)
    requires ParseArgs(s, n).1 != NoError
    ensures GoesOn(s, n, tail) && ParseArg(tail).1 == ParseArgs(s, n).1
    decreases n
  {
    hide IsArg, ParseArg;
    var (arg, err, rest) := ParseArg(s);
    if err != NoError {
      tail := s;
      assert IsArgs("", []) && s == "" + tail;
    } else {
      var first := ArgSound(s);
      tail := ArgsStop(rest, n - 1);
      var body, more :| IsArgs(body, more) && |more| < n - 1 && rest == body + tail;
      var args := [arg] + more;
      assert args[1..] == more && IsArgs(first + body, args);
      assert s == (first + body) + tail;
    }
  }

  lemma {:induction false} ArgsStopped(s: string, n: nat, tail: string)
    requires GoesOn(s, n, tail) && ParseArg(tail).1 != NoError
    ensures ParseArgs(s, n).1 == ParseArg(tail).1
    decreases n
  {
    hide IsArg, ParseArg;
    var body, args :| IsArgs(body, args) && |args| < n && s == body + tail;
    if args == [] {
      assert s == tail;
    } else {
      var first, more :| IsArg(first, args[0]) && IsArgs(more, args[1..]) && body == first + more;
      Associative(first, more, tail);
      ArgAccepted(first, args[0], more + tail);
      assert GoesOn(more + tail, n - 1, tail);
      ArgsStopped(more + tail, n - 1, tail);
    }
  }

  /** The length -1, then an empty line. */
  ghost predicate MinusOne(tail: string) {
    exists size, rest :: IsSize(size, '$', -1) && tail == size + ("\n" + rest)
  }

  /** A length line that does not end, or a length line and then a data line that does not end. */
  ghost predicate CutOff(tail: string) {
    '\n' !in tail || exists n, size, rest :: IsSize(size, '$', n) && tail == size + rest && '\n' !in rest
  }

  lemma ArgPanics(s: string)
    ensures ParseArg(s).1 == PanicIndex <==> MinusOne(s)
  {
    hide IsSize, ParseSize, ParseData;
    SizeFails(s, '$');
    var (n, err, more) := ParseSize(s, '$');
    DataPanicsExactly(more, n);
    if ParseArg(s).1 == PanicIndex {
      var size := SizeSound(s, '$');
      assert more == "\n" + more[1..];
    }
    if MinusOne(s) {
      var size, rest :| IsSize(size, '$', -1) && s == size + ("\n" + rest);
      SizeAccepted(size, '$', -1, "\n" + rest);
    }
  }

  lemma DataFails(s: string, cmdLen: int)
    ensures ParseData(s, cmdLen).1 == EOF <==> '\n' !in s
  {
    LineFails(s);
  }

  lemma ArgEnds(s: string)
    ensures ParseArg(s).1 == EOF <==> CutOff(s)
  {
    hide IsSize, ParseSize, ParseData;
    SizeFails(s, '$');
    var (n, err, more) := ParseSize(s, '$');
    DataFails(more, n);
    if ParseArg(s).1 == EOF && '\n' in s {
      var size := SizeSound(s, '$');
    }
    if k, size, rest :| IsSize(size, '$', k) && s == size + rest && '\n' !in rest {
      SizeAccepted(size, '$', k, rest);
    }
  }

  /** A command that declares as many arguments as there is room for, and goes on with `tail` before
      they are all there. */
  ghost predicate StopsAt(s: string, room: nat, tail: string) {
    exists n, size, more :: IsSize(size, '*', n) && 1 <= n <= room && s == size + more && GoesOn(more, n, tail)
  }

  /** A failure in the arguments is the failure at the place where the command stops. */
  lemma FailsInside(s: string, room: nat, err: Error)
    requires err == EOF || err == PanicIndex
    ensures ParseCmd(s, room).1 == err <==>
      (err == EOF && '\n' !in s) || exists tail :: StopsAt(s, room, tail) && ParseArg(tail).1 == err
  {
    hide IsSize, ParseSize, ParseArgs, ParseArg, GoesOn;
    SizeFails(s, '*');
    if ParseCmd(s, room).1 == err && '\n' in s {
      var size := SizeSound(s, '*');
      var (n, e, more) := ParseSize(s, '*');
      var tail := ArgsStop(more, n);
      assert StopsAt(s, room, tail);
    }
    if tail :| StopsAt(s, room, tail) && ParseArg(tail).1 == err {
      var n, size, more :|
        IsSize(size, '*', n) && 1 <= n <= room && s == size + more && GoesOn(more, n, tail);
      SizeAccepted(size, '*', n, more);
      ArgsStopped(more, n, tail);
    }
  }

  /** Exactly which inputs reach the out-of-range index: a command that declares some arguments, then
      well-formed arguments, fewer than that, then the length -1 and an empty line. */
  lemma PanicsExactly(s: string, room: nat)
    ensures ParseCmd(s, room).1 == PanicIndex <==> exists tail :: StopsAt(s, room, tail) && MinusOne(tail)
  {
    hide StopsAt, MinusOne, ParseCmd, ParseArg;
    FailsInside(s, room, PanicIndex);
    forall tail
      ensures ParseArg(tail).1 == PanicIndex <==> MinusOne(tail)
    {
      ArgPanics(tail);
    }
  }

  /** Exactly which inputs end too early: the first line does not end, or a command stops in the
      middle of a line of its arguments. */
  lemma EndsEarlyExactly(s: string, room: nat)
    ensures ParseCmd(s, room).1 == EOF <==>
      '\n' !in s || exists tail :: StopsAt(s, room, tail) && CutOff(tail)
  {
    hide StopsAt, CutOff, ParseCmd, ParseArg;
    FailsInside(s, room, EOF);
    forall tail
      ensures ParseArg(tail).1 == EOF <==> CutOff(tail)
    {
      ArgEnds(tail);
    }
  }

  lemma {:induction false} ArgsFail(s: string, n: nat)
    ensures ParseArgs(s, n).1 != PanicMake
    decreases n
  {
    hide ParseSize, Atoi;
    if n == 0 {
    } else {
      SizeFails(s, '$');
      ArgsFail(ParseArg(s).2, n - 1);
    }
  }

  /** The allocation fails exactly on a first line that declares more arguments than there is room
      for, whatever follows it. */
  lemma AllocationFailsExactly(s: string, room: nat)
    ensures ParseCmd(s, room).1 == PanicMake <==>
            exists n, size, more :: IsSize(size, '*', n) && n > room && s == size + more
  {
    hide IsSize, ParseSize, ParseArgs;
    SizeFails(s, '*');
    var (n, err, more) := ParseSize(s, '*');
    if ParseCmd(s, room).1 == PanicMake {
      if err == NoError && 1 <= n <= room {
        ArgsFail(more, n);
      }
      var size := SizeSound(s, '*');
    }
    if k, size, rest :| IsSize(size, '*', k) && k > room && s == size + rest {
      SizeAccepted(size, '*', k, rest);
    }
  }

  /** The shortest such input: one argument, declared length -1, empty line. */
  lemma MinusOnePanics(room: nat)
    requires room >= 1
    ensures ParseCmd("*1\r\n$-1\r\n\n", room).1 == PanicIndex
  {
    hide IsSize, Atoi, ParseCmd;
    SmallSizes();
    var tail := "$-1\r\n" + ("\n" + "");
    assert tail == "$-1\r\n\n" && MinusOne(tail);
    assert IsArgs("", []) && tail == "" + tail;
    assert "*1\r\n$-1\r\n\n" == "*1\r\n" + tail;
    assert GoesOn(tail, 1, tail);
    assert StopsAt("*1\r\n$-1\r\n\n", room, tail);
    PanicsExactly("*1\r\n$-1\r\n\n", room);
  }

  lemma SmallSizes()
    ensures IsSize("*1\r\n", '*', 1) && IsSize("$-1\r\n", '$', -1)
  {
    hide Atoi;
    SmallNumbers();
    assert "*1\r\n"[1..2] == "1" && "$-1\r\n"[1..3] == "-1";
  }

  lemma SmallNumbers()
    ensures Atoi("1") == Some(1) && Atoi("-1") == Some(-1)
  {
    assert "1"[..0] == "" && "-1"[1..] == "1";
    assert Value("1") == 1;
  }

  // ----- the printer -----

  function PrintArg(arg: string): string {
    "$" + Itoa(|arg|) + "\r\n" + arg + "\r\n"
  }

  function PrintArgs(args: seq<string>): string {
    if args == [] then "" else PrintArg(args[0]) + PrintArgs(args[1..])
  }

  /** What a client sends (test/tcp/main.go:29). */
  function Print(args: seq<string>): string {
    "*" + Itoa(|args|) + "\r\n" + PrintArgs(args)
  }

  /** The format of test/tcp/main.go:29. */
  lemma PrintsAsTheClient(cmd: string, key: string, mid: string, heartbeat: string)
    ensures Print([cmd, key, mid, heartbeat]) ==
      "*4\r\n" +
      ("$" + Itoa(|cmd|) + "\r\n" + cmd + "\r\n" +
      ("$" + Itoa(|key|) + "\r\n" + key + "\r\n" +
      ("$" + Itoa(|mid|) + "\r\n" + mid + "\r\n" +
      ("$" + Itoa(|heartbeat|) + "\r\n" + heartbeat + "\r\n"))))
  {
    assert Itoa(4) == "4";
    assert "*" + "4" + "\r\n" == "*4\r\n";
    hide Itoa;
    PrintsOne(heartbeat, []);
    PrintsOne(mid, [heartbeat]);
    PrintsOne(key, [mid, heartbeat]);
    PrintsOne(cmd, [key, mid, heartbeat]);
    assert PrintArg(heartbeat) + "" == PrintArg(heartbeat);
    assert [key] + [mid, heartbeat] == [key, mid, heartbeat];
    assert [cmd] + [key, mid, heartbeat] == [cmd, key, mid, heartbeat];
    assert [mid] + [heartbeat] == [mid, heartbeat];
    assert [heartbeat] + [] == [heartbeat];
  }

  lemma PrintsOne(arg: string, more: seq<string>)
    ensures PrintArgs([arg] + more) == PrintArg(arg) + PrintArgs(more)
  {
    assert ([arg] + more)[1..] == more;
  }

  /** Argument lists a client can send: not empty, lengths that fit an int, no newline. */
  ghost predicate Sendable(args: seq<string>) {
    args != [] && |args| <= MAX_INT && forall i :: 0 <= i < |args| ==> '\n' !in args[i] && |args[i]| <= MAX_INT
  }

  lemma SizePrinted(prefix: char, n: nat)
    requires n <= MAX_INT
    ensures IsSize([prefix] + Itoa(n) + "\r\n", prefix, n)
  {
    hide Itoa, Atoi;
    AtoiItoa(n);
    assert ([prefix] + Itoa(n) + "\r\n")[1..|[prefix] + Itoa(n) + "\r\n"| - 2] == Itoa(n);
  }

  lemma {:induction false} ArgsPrinted(args: seq<string>)
    requires forall i :: 0 <= i < |args| ==> '\n' !in args[i] && |args[i]| <= MAX_INT
    ensures IsArgs(PrintArgs(args), args)
  {
    hide Itoa, IsSize;
    if args == [] {
    } else {
      SizePrinted('$', |args[0]|);
      ArgsPrinted(args[1..]);
      assert PrintArg(args[0]) == (['$'] + Itoa(|args[0]|) + "\r\n") + (args[0] + "\r\n");
      assert IsArg(PrintArg(args[0]), args[0]);
    }
  }

  /** Round trip: parsing a printed command, followed by any bytes, gives back its arguments and
      leaves exactly those bytes, if there is room for the arguments at all. */
  lemma RoundTrip(args: seq<string>, rest: string, room: nat)
    requires Sendable(args)
    ensures if |args| <= room then ParseCmd(Print(args) + rest, room) == (args, NoError, rest)
            else ParseCmd(Print(args) + rest, room).1 == PanicMake
  {
    hide Itoa, IsSize, ParseCmd, IsArgs;
    SizePrinted('*', |args|);
    ArgsPrinted(args);
    assert Print(args) == (['*'] + Itoa(|args|) + "\r\n") + PrintArgs(args);
    assert IsCommand(Print(args), args);
    ParsesExactly(Print(args) + rest, room, args, rest);
    assert Print(args) + rest == (['*'] + Itoa(|args|) + "\r\n") + (PrintArgs(args) + rest);
    AllocationFailsExactly(Print(args) + rest, room);
  }

  /** Printed commands are prefix-free. */
  lemma PrefixFree(a: seq<string>, x: string, b: seq<string>, y: string)
    requires Sendable(a) && Sendable(b) && Print(a) + x == Print(b) + y
    ensures a == b && x == y
  {
    RoundTrip(a, x, |a| + |b|);
    RoundTrip(b, y, |a| + |b|);
  }

  lemma {:induction false} ArgsHaveNoNewline(s: string, args: seq<string>)
    requires IsArgs(s, args)
    ensures forall i :: 0 <= i < |args| ==> '\n' !in args[i] && |args[i]| <= MAX_INT
    decreases |args|
  {
    hide IsSize;
    if args == [] {
    } else {
      var first, more :| IsArg(first, args[0]) && IsArgs(more, args[1..]) && s == first + more;
      var size :| IsSize(size, '$', |args[0]|) && first == size + (args[0] + "\r\n");
      SizeFits(size, '$', |args[0]|);
      ArgsHaveNoNewline(more, args[1..]);
    }
  }

  lemma SizeFits(s: string, prefix: char, n: int)
    requires IsSize(s, prefix, n)
    ensures MIN_INT <= n <= MAX_INT
  {
    hide Value;
  }

  /** Whatever is accepted, printing it again in the canonical form and parsing that gives the same
      arguments. */
  lemma Normalises(s: string, room: nat, more: string)
    requires ParseCmd(s, room).1 == NoError
    ensures ParseCmd(Print(ParseCmd(s, room).0) + more, room) == (ParseCmd(s, room).0, NoError, more)
  {
    hide IsSize, IsArgs, ParseCmd;
    var (args, err, rest) := ParseCmd(s, room);
    ParsesExactly(s, room, args, rest);
    var cmd :| IsCommand(cmd, args) && s == cmd + rest;
    var size, body :| IsSize(size, '*', |args|) && IsArgs(body, args) && cmd == size + body;
    SizeFits(size, '*', |args|);
    ArgsHaveNoNewline(body, args);
    RoundTrip(args, more, room);
  }
}
