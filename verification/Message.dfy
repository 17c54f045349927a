/** What message.go:18-30 says of a message.  `ref` is the identity of the message object: the
    source handles messages by pointer, and every push brings a new one. */
module Messages {
  datatype Message = Message(ref: nat, Msg: string, Expire: int, MsgID: int) {
    predicate Expired(now: int) {
      now > Expire
    }
  }

  /** The identity of a connection. */
  type ConnId = int
}

/** Message framing in TCP mode: message.go:43-80 writes a frame into a buffer, and the client of
    test/tcp/main.go:73-102 reads it. */
module Framing {
  import opened Decimal
  import opened CommandSpec

  function Frame(payload: string): string {
    "$" + Itoa(|payload|) + "\r\n" + payload + "\r\n"
  }

  /** What the client makes of its input: the payload of one frame and what follows it. */
  function ReadFrame(s: string): Option<(string, string)> {
    var (line, err, rest) := Line(s);
    if err != NoError || |line| < 3 || line[0] != '$' || line[|line| - 2] != '\r' then None
    else
      var size := Atoi(line[1..|line| - 2]);
      if size == None || size.value < 0 || |rest| < size.value + 2 then None
      else if rest[size.value..size.value + 2] != "\r\n" then None
      else Some((rest[..size.value], rest[size.value + 2..]))
  }

  lemma FrameLine(payload: string, more: string)
    requires |payload| <= MAX_INT
    ensures Line(Frame(payload) + more) == ("$" + Itoa(|payload|) + "\r\n", NoError, payload + "\r\n" + more)
  {
    hide Itoa, Atoi;
    AtoiItoa(|payload|);
    NumberText(Itoa(|payload|));
    LineOf("$" + Itoa(|payload|) + "\r", payload + "\r\n" + more);
    assert Frame(payload) + more == ("$" + Itoa(|payload|) + "\r") + "\n" + (payload + "\r\n" + more);
    assert ("$" + Itoa(|payload|) + "\r") + "\n" == "$" + Itoa(|payload|) + "\r\n";
  }

  /** A client gets back any payload, and what follows the frame. */
  lemma FrameRoundTrip(payload: string, more: string)
    requires |payload| <= MAX_INT
    ensures ReadFrame(Frame(payload) + more) == Some((payload, more))
  {
    hide Itoa, Atoi, Frame, Line;
    FrameLine(payload, more);
    AtoiItoa(|payload|);
    var line, rest := "$" + Itoa(|payload|) + "\r\n", payload + "\r\n" + more;
    assert line[1..|line| - 2] == Itoa(|payload|);
    assert rest[|payload|..|payload| + 2] == "\r\n";
    assert rest[..|payload|] == payload && rest[|payload| + 2..] == more;
  }

  /** The client reads the payload back from a buffer exactly when nothing stood before the frame. */
  lemma ReadableExactly(before: string, payload: string)
    requires |payload| <= MAX_INT
    ensures ReadFrame(before + Frame(payload)) == Some((payload, "")) <==> before == ""
  {
    hide Itoa, Atoi, Frame, Line;
    if before == "" {
      assert before + Frame(payload) == Frame(payload) + "";
      FrameRoundTrip(payload, "");
    } else {
      NotReadable(before, payload);
    }
  }

  lemma NotReadable(before: string, payload: string)
    requires |payload| <= MAX_INT && before != ""
    ensures ReadFrame(before + Frame(payload)) != Some((payload, ""))
  {
    hide Itoa, Atoi;
    var s := before + Frame(payload);
    var (line, err, rest) := Line(s);
    if ReadFrame(s) == Some((payload, "")) {
      LineIs(s);
      var t := line[1..|line| - 2];
      assert |rest| == |payload| + 2 && |line| == |before| + |Itoa(|payload|)| + 3;
      assert s[|before|] == '$' && line[|before|] == s[|before|] && t[|before| - 1] == '$';
      NumberText(t);
    }
  }

  // ----- the buffer -----

  class Buffer {
    var data: string

    /** newWriteBuf: a pooled buffer is reset; a new one starts with `size` zero bytes. */
    constructor (pooled: bool, size: nat)
      ensures data == if pooled then "" else Zeros(size)
      ensures |data| == (if pooled then 0 else size) && forall i :: 0 <= i < |data| ==> data[i] == 0 as char
    {
      data := if pooled then "" else Zeros(size);
    }

    /** The frame is appended. */
    method Append(json: string)
      modifies this
      ensures data == old(data) + Frame(json)
      ensures data == old(data) + ("$" + Itoa(|json|) + "\r\n" + json + "\r\n")
    {
      data := data + "$" + Itoa(|json|) + "\r\n";
      data := data + json;
      data := data + "\r\n";
    }
  }

  /** Bytes of a message whose payload is `json`.  In TCP mode everything in the buffer is sent, and
      without a buffer there is an error; in websocket mode the payload is sent as it is. */
  method Bytes(tcp: bool, b: Buffer?, json: string) returns (r: Option<string>)
    modifies b
    ensures r == None <==> tcp && b == null
    ensures tcp && b != null ==> b.data == old(b.data) + Frame(json) && r == Some(b.data)
    ensures tcp && b != null ==> b.data == old(b.data) + ("$" + Itoa(|json|) + "\r\n" + json + "\r\n")
    ensures !tcp ==> r == Some(json) && (b != null ==> b.data == old(b.data))
  {
    if tcp {
      if b == null {
        return None;
      }
      b.Append(json);
      return Some(b.data);
    } else {
      return Some(json);
    }
  }

  function Zeros(n: nat): string {
    seq(n, _ => 0 as char)
  }

  /** The first push through a buffer is readable exactly when the buffer comes from the pool or
      new buffers start empty. */
  lemma FirstPushReadable(pooled: bool, size: nat, json: string)
    requires |json| <= MAX_INT
    ensures ReadFrame((if pooled then "" else Zeros(size)) + Frame(json)) == Some((json, "")) <==> pooled || size == 0
  {
    ReadableExactly(if pooled then "" else Zeros(size), json);
  }
}
