/** Messages over a byte stream (c_binding/lsm_ipc.cpp): a ten-digit length and the
    payload, sent and received in pieces of any size. */
module Transport {
  import opened Wrappers
  import opened Numbers
  import opened Texts

  const HDR_LEN := 10
  const MAX_PAYLOAD := 0x8000_0000
  const BUFFER := 4096

  /** What goes over the wire for a message.  The size is an `unsigned int`. */
  function Frame(msg: string): string {
    ZeroPad(HDR_LEN, |msg| % 0x1_0000_0000) + msg
  }

  /** `strtoul` of a header: no digits give 0, a minus sign wraps around 64 bits. */
  function PayloadLength(header: string): nat {
    match Scan(header)
    case None => 0
    case Some(n) => n % 0x1_0000_0000_0000_0000
  }

  /** Outcome of `msg_recv` on the rest of a stream: a message and what is left, or the
      EOFException.  A length of 2^31 or more gives an empty message. */
  datatype Received = Message(msg: string, rest: string) | Eof

  function Receive(wire: string): Received {
    if |wire| < HDR_LEN then Eof
    else
      var n, body := PayloadLength(wire[..HDR_LEN]), wire[HDR_LEN..];
      if n >= MAX_PAYLOAD then Message("", body)
      else if |body| < n then Eof
      else Message(body[..n], body[n..])
  }

  /** A framed message is received unchanged, with nothing of what follows touched,
      exactly when it is shorter than 2^31 bytes. */
  lemma FrameReceived(msg: string, rest: string)
    ensures Receive(Frame(msg) + rest) == Message(msg, rest) <==> |msg| < MAX_PAYLOAD
  {
    hide Scan, ZeroPad, Frame;
    PaddedHeader(|msg| % 0x1_0000_0000);
    FrameLayout(msg, rest);
    if |msg| < MAX_PAYLOAD {
      assert (msg + rest)[..|msg|] == msg && (msg + rest)[|msg|..] == rest;
    }
  }

  /** From 2^31 bytes on the frame is taken for an empty message, and its payload is left
      in the stream. */
  lemma LongFrame(msg: string, rest: string)
    requires MAX_PAYLOAD <= |msg| < 0x1_0000_0000
    ensures Receive(Frame(msg) + rest) == Message("", msg + rest)
  {
    hide Scan, ZeroPad, Frame;
    PaddedHeader(|msg|);
    FrameLayout(msg, rest);
  }

  /** A header that does not start with a number is taken for the length 0. */
  lemma JunkHeader(wire: string)
    requires |wire| >= HDR_LEN && 'A' <= wire[0]
    ensures Receive(wire) == Message("", wire[HDR_LEN..])
  {
    var header := wire[..HDR_LEN];
    ScanFails("", header);
    assert "" + header == header;
  }

  lemma FrameLayout(msg: string, rest: string)
    ensures var wire := Frame(msg) + rest;
            && |wire| >= HDR_LEN && wire[HDR_LEN..] == msg + rest
            && wire[..HDR_LEN] == ZeroPad(HDR_LEN, |msg| % 0x1_0000_0000)
  {
    hide Scan, ZeroPad;
    PaddedHeader(|msg| % 0x1_0000_0000);
  }

  function FrameAll(msgs: seq<string>): string {
    if msgs == [] then "" else Frame(msgs[0]) + FrameAll(msgs[1..])
  }

  /** Every message of a stream up to its end, and the bytes left over. */
  function ReceiveAll(wire: string): (seq<string>, string)
    decreases |wire|
  {
    match Receive(wire)
    case Eof => ([], wire)
    case Message(msg, rest) =>
      var (msgs, left) := ReceiveAll(rest);
      ([msg] + msgs, left)
  }

  /** Framing is lossless: a stream of framed messages is read as exactly those messages. */
  lemma {:induction false} FramesReceived(msgs: seq<string>)
    requires forall m | m in msgs :: |m| < MAX_PAYLOAD
    ensures ReceiveAll(FrameAll(msgs)) == (msgs, "")
  {
    hide Frame, Receive;
    if msgs == [] {
      assert Receive("") == Eof by { EmptyIsEof(); }
    } else {
      FrameReceived(msgs[0], FrameAll(msgs[1..]));
      FramesReceived(msgs[1..]);
      assert [msgs[0]] + msgs[1..] == msgs;
    }
  }

  lemma EmptyIsEof()
    ensures Receive("") == Eof
  {
  }

  lemma PartialFrame(msg: string, part: string)
    requires |msg| < MAX_PAYLOAD && part < Frame(msg)
    ensures Receive(part) == Eof
  {
    hide Scan, ZeroPad;
    PaddedHeader(|msg|);
    if |part| >= HDR_LEN {
      assert part[..HDR_LEN] == Frame(msg)[..HDR_LEN] == ZeroPad(HDR_LEN, |msg|);
    }
  }

  lemma SplitPrefix(w: string, a: string, b: string)
    requires w <= a + b && |a| <= |w|
    ensures w == a + w[|a|..] && w[|a|..] <= b
  {
    assert w == (a + b)[..|w|];
  }

  /** Wherever a stream of framed messages is cut off, what is received is the first of
      them, and all of them only if nothing was cut off. */
  lemma {:induction false} PrefixReceived(msgs: seq<string>, w: string)
    requires (forall m | m in msgs :: |m| < MAX_PAYLOAD) && w <= FrameAll(msgs)
    ensures ReceiveAll(w).0 <= msgs
    ensures ReceiveAll(w).0 == msgs <==> w == FrameAll(msgs)
    decreases |msgs|
  {
    hide Frame, Receive;
    EmptyIsEof();
    if msgs != [] {
      var f := Frame(msgs[0]);
      if |w| < |f| {
        assert w == FrameAll(msgs)[..|w|] == f[..|w|];
        PartialFrame(msgs[0], w);
      } else {
        var rest := w[|f|..];
        SplitPrefix(w, f, FrameAll(msgs[1..]));
        FrameReceived(msgs[0], rest);
        PrefixReceived(msgs[1..], rest);
        assert [msgs[0]] + msgs[1..] == msgs;
      }
    }
  }

  // ----- the socket and its loops

  /** One end of a connection.  `incoming` is all that the peer will have sent by the time
      it closes; the system decides how many bytes each call moves and when it fails. */
  class Socket {
    var outgoing: string
    var incoming: string
    var failed: bool

    constructor (incoming: string)
      ensures outgoing == "" && this.incoming == incoming && !failed
    {
      outgoing, this.incoming, failed := "", incoming, false;
    }

    /** `send`: takes some of the bytes, or fails and returns -1. */
    method Send(data: string) returns (wrote: int)
      requires data != []
      modifies `outgoing, `failed
      ensures wrote == -1 || 1 <= wrote <= |data|
      ensures wrote == -1 ==> failed && outgoing == old(outgoing)
      ensures wrote != -1 ==> failed == old(failed) && outgoing == old(outgoing) + data[..wrote]
    {
      var n: int :| 0 <= n <= |data|;
      if n == 0 {
        failed := true;
        return -1;
      }
      outgoing := outgoing + data[..n];
      return n;
    }

    /** `recv`: some of the bytes asked for, none at the end of the stream, or -1. */
    method Recv(count: nat) returns (rd: int, buff: string)
      requires count > 0
      modifies `incoming, `failed
      ensures rd == -1 ==> failed && incoming == old(incoming)
      ensures rd != -1 ==> failed == old(failed) && 0 <= rd == |buff| <= count && old(incoming) == buff + incoming
      ensures rd == 0 ==> incoming == []
    {
      if incoming == [] {
        return 0, [];
      }
      var n: int :| 0 <= n <= count && n <= |incoming|;
      if n == 0 {
        failed := true;
        return -1, [];
      }
      rd, buff := n, incoming[..n];
      incoming := incoming[n..];
    }

    /** `Transport::msg_send`: an empty message is refused; otherwise, in however many
        pieces, the whole frame goes out or an error is reported after a part of it. */
    method MsgSend(msg: string) returns (rc: int)
      requires !failed
      modifies `outgoing, `failed
      ensures rc == 0 <==> msg != "" && !failed
      ensures rc == 0 ==> outgoing == old(outgoing) + Frame(msg)
      ensures rc != 0 ==> rc == -1 && old(outgoing) <= outgoing <= old(outgoing) + Frame(msg)
      ensures msg == "" ==> outgoing == old(outgoing) && !failed
    {
      rc := -1;
      if |msg| > 0 {
        var data := Frame(msg);
        var written := 0;
        while written < |data|
          invariant 0 <= written <= |data| && !failed
          invariant outgoing == old(outgoing) + data[..written]
        {
          var wrote := Send(data[written..]);
          if wrote == -1 {
            return;
          }
          assert data[..written] + data[written..][..wrote] == data[..written + wrote];
          written := written + wrote;
        }
        rc := 0;
      }
    }

    /** `string_read`: None is the EOFException. */
    method StringRead(count: nat) returns (r: Option<string>)
      requires !failed
      modifies `incoming, `failed
      ensures r.Some? <==> !failed && |old(incoming)| >= count
      ensures r.Some? ==> r.value == old(incoming)[..count] && incoming == old(incoming)[count..]
    {
      var s := "";
      while |s| < count
        invariant |s| <= count && !failed
        invariant old(incoming) == s + incoming
      {
        var want := if count - |s| < BUFFER then count - |s| else BUFFER;
        var rd, buff := Recv(want);
        if rd <= 0 {
          return None;
        }
        s := s + buff;
      }
      return Some(s);
    }

    /** `Transport::msg_recv`: in however many pieces the bytes arrive, the outcome is that
        of the whole stream. */
    method MsgRecv() returns (r: Option<string>)
      requires !failed
      modifies `incoming, `failed
      ensures !failed ==> match Receive(old(incoming))
                          case Eof => r == None
                          case Message(msg, rest) => r == Some(msg) && incoming == rest
      ensures failed ==> r == None
    {
      var len := StringRead(HDR_LEN);
      if len == None {
        return None;
      }
      var n := PayloadLength(len.value);
      if n < MAX_PAYLOAD {
        r := StringRead(n);
      } else {
        r := Some("");
      }
    }
  }
  // ----- any number of messages

  /** Messages sent one after the other, up to the first failure. */
  method SendAll(s: Socket, msgs: seq<string>) returns (ok: bool)
    requires !s.failed && forall m | m in msgs :: m != ""
    modifies s
    ensures s.outgoing <= old(s.outgoing) + FrameAll(msgs)
    ensures ok ==> s.outgoing == old(s.outgoing) + FrameAll(msgs)
  {
    hide Frame, FrameAll;
    ghost var total := s.outgoing + FrameAll(msgs);
    assert msgs[0..] == msgs;
    for k := 0 to |msgs|
      invariant !s.failed && s.outgoing + FrameAll(msgs[k..]) == total
    {
      FrameNext(msgs, k);
      Associative(s.outgoing, Frame(msgs[k]), FrameAll(msgs[k + 1..]));
      var rc := s.MsgSend(msgs[k]);
      if rc != 0 {
        return false;
      }
    }
    assert msgs[|msgs|..] == [];
    FrameNone();
    return true;
  }

  lemma FrameNext(msgs: seq<string>, k: nat)
    requires k < |msgs|
    ensures FrameAll(msgs[k..]) == Frame(msgs[k]) + FrameAll(msgs[k + 1..])
  {
    assert msgs[k..][1..] == msgs[k + 1..];
  }

  lemma FrameNone()
    ensures FrameAll([]) == ""
  {
  }

  /** Messages received one after the other, up to the end of the stream or a failure. */
  method RecvAll(s: Socket) returns (got: seq<string>)
    requires !s.failed
    modifies s
    ensures got <= ReceiveAll(old(s.incoming)).0
    ensures !s.failed ==> got == ReceiveAll(old(s.incoming)).0
  {
    hide Receive;
    got := [];
    var r := s.MsgRecv();
    ghost var all := ReceiveAll(old(s.incoming)).0;
    ghost var rest := if r.Some? then [r.value] + ReceiveAll(s.incoming).0 else [];
    assert !s.failed ==> all == rest;
    while r.Some?
      invariant r.Some? ==> !s.failed && got + [r.value] + ReceiveAll(s.incoming).0 == all
      invariant r.None? ==> got <= all && (!s.failed ==> got == all)
      decreases r.Some?, |s.incoming|
    {
      got := got + [r.value];
      ghost var before := s.incoming;
      r := s.MsgRecv();
      if r.Some? {
        Shrinks(before);
        assert got + ([r.value] + ReceiveAll(s.incoming).0) == got + [r.value] + ReceiveAll(s.incoming).0;
      }
    }
  }

  lemma Shrinks(wire: string)
    ensures Receive(wire).Message? ==> |Receive(wire).rest| < |wire|
  {
  }

  /** Messages carried over a connection: both ends move pieces of any size and may fail at
      any call.  What arrives is always the first of the messages, in order and unchanged,
      and all of them when neither end failed. */
  method Carry(msgs: seq<string>) returns (ok: bool, got: seq<string>)
    requires forall m | m in msgs :: 0 < |m| < MAX_PAYLOAD
    ensures got <= msgs
    ensures ok ==> got == msgs
  {
    hide ReceiveAll, FrameAll;
    var sender := new Socket("");
    var sent := SendAll(sender, msgs);
    assert "" + FrameAll(msgs) == FrameAll(msgs);
    var receiver := new Socket(sender.outgoing);
    got := RecvAll(receiver);
    PrefixReceived(msgs, sender.outgoing);
    ok := sent && !receiver.failed;
  }
}
