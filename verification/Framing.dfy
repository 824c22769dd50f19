/** Frames on a stream socket. The kernel may accept or deliver any part of what is asked, be
    interrupted, or fail; a script says what it does, call after call, for every possible script.
    Bytes only: the descriptors that travel with a frame are counted against their limit and no more. */
module Framing {
  import opened Common
  import opened Bytes

  const MAX_BODY: nat := 65531
  const MAX_FDS: nat := 64
  const WW_ERR_SHORT := -1

  // ---------------------------------------------------------------- frames as bytes

  datatype Frame = Frame(opcode: nat, body: seq<byte>)

  predicate WellSized(f: Frame) { f.opcode < U16_LIMIT && |f.body| <= MAX_BODY }

  function Le16(n: nat): seq<byte> { [n % 256, n / 256 % 256] }

  /** A header of opcode and total length, then the body. */
  function Wire(f: Frame): seq<byte> { Le16(f.opcode) + Le16(|f.body| + 4) + f.body }

  function Stream(fs: seq<Frame>): seq<byte> {
    if fs == [] then [] else Wire(fs[0]) + Stream(fs[1..])
  }

  function Half(s: seq<byte>): nat
    requires |s| >= 2
  {
    s[0] as nat + 256 * s[1] as nat
  }

  /** The longest body is the longest one whose length, header included, sixteen bits can say. */
  lemma BodyLimit(f: Frame)
    ensures WellSized(f) <==> f.opcode < 0x1_0000 && |f.body| + 4 < 0x1_0000
    ensures Wire(f) == [f.opcode % 256, f.opcode / 256 % 256, (|f.body| + 4) % 256, (|f.body| + 4) / 256 % 256] + f.body
  {
  }

  /** What a receiver is to make of the bytes before it: a frame, or an error. */
  datatype Parsed = Got(frame: Frame, rest: seq<byte>) | Bad(rc: int)

  function Parse(s: seq<byte>): Parsed {
    if |s| < 4 then Bad(ENOTCONN)
    else
      var total := Half(s[2..]);
      if total < 4 then Bad(WW_ERR_SHORT)
      else if |s| < total then Bad(ENOTCONN)
      else Got(Frame(Half(s), s[4..total]), s[total..])
  }

  lemma ParseOfWire(f: Frame, rest: seq<byte>)
    requires WellSized(f)
    ensures Parse(Wire(f) + rest) == Got(f, rest)
  {
    var s := Wire(f) + rest;
    assert s[2..] == Le16(|f.body| + 4) + f.body + rest;
    assert Half(s) == f.opcode && Half(s[2..]) == |f.body| + 4;
    assert s[4..|f.body| + 4] == f.body && s[|f.body| + 4..] == rest;
  }

  /** What a failed send leaves is never taken for a frame. */
  lemma PartNeverParsed(f: Frame, n: nat)
    requires WellSized(f) && n < |Wire(f)|
    ensures Parse(Wire(f)[..n]) == Bad(ENOTCONN)
  {
    var s := Wire(f)[..n];
    if n >= 4 {
      assert s[2..][0] == Wire(f)[2] && s[2..][1] == Wire(f)[3];
      assert Half(s[2..]) == |f.body| + 4;
    }
  }

  /** A receiver that takes frame after frame from a stream of frames gets them all, in order. */
  lemma {:induction false} StreamParsed(fs: seq<Frame>, k: nat)
    requires k <= |fs| && forall i :: 0 <= i < |fs| ==> WellSized(fs[i])
    ensures ParsedPrefix(Stream(fs), k) == (fs[..k], Stream(fs[k..]))
    decreases k
  {
    if k > 0 {
      StreamParsed(fs, k - 1);
      ParseOfWire(fs[k - 1], Stream(fs[k..]));
      assert fs[k - 1..][1..] == fs[k..];
      assert fs[..k] == fs[..k - 1] + [fs[k - 1]];
    } else {
      assert fs[0..] == fs;
    }
  }

  /** The first `k` frames taken from a stream, and what is left of it. */
  function ParsedPrefix(s: seq<byte>, k: nat): (seq<Frame>, seq<byte>) {
    if k == 0 then ([], s)
    else
      var (fs, rest) := ParsedPrefix(s, k - 1);
      match Parse(rest)
      case Got(f, more) => (fs + [f], more)
      case Bad(_) => (fs, rest)
  }

  // ---------------------------------------------------------------- the kernel

  /** How one system call goes: some bytes, an interruption, or an error number. */
  datatype Outcome = Moved(n: nat) | Interrupted | Fault(errno: Errno)

  /** Error numbers other than that of an interruption. */
  type Errno = n: nat | n > 0 && n != 4 witness 32

  /** Calls that move at least a byte or are interrupted. */
  predicate Smooth(script: seq<Outcome>) {
    forall i :: 0 <= i < |script| ==> script[i] == Interrupted || (script[i].Moved? && script[i].n > 0)
  }

  /** What a call returns when the script is `script`: at most `most` bytes; everything once the script
      is used up. */
  function Answer(script: seq<Outcome>, most: nat): (o: Outcome)
    ensures o.Moved? ==> o.n <= most
  {
    if script == [] then Moved(most)
    else match script[0]
      case Moved(n) => Moved(if n < most then n else most)
      case other => other
  }

  function Later(script: seq<Outcome>): seq<Outcome> { if script == [] then [] else script[1..] }

  /** The sending end: what was handed to the kernel, and how it will go on. */
  class Sender {
    var sent: seq<byte>
    var script: seq<Outcome>

    constructor (script: seq<Outcome>)
      ensures sent == [] && this.script == script
    {
      sent, this.script := [], script;
    }

    /** `write`, and `sendmsg` on the pieces put together. */
    method Push(p: seq<byte>) returns (o: Outcome)
      modifies this
      ensures o == Answer(old(script), |p|) && script == Later(old(script))
      ensures sent == old(sent) + if o.Moved? then p[..o.n] else []
    {
      o := Answer(script, |p|);
      script := Later(script);
      if o.Moved? { sent := sent + p[..o.n]; }
    }

    /** Everything of `p` went out, or there is an error and only a part did; a smooth socket does not
        fail. */
    twostate predicate Sent(p: seq<byte>, rc: int)
      reads this
    {
      && (rc == 0 ==> sent == old(sent) + p)
      && (rc != 0 ==> rc < 0 && exists n: nat :: n < |p| && sent == old(sent) + p[..n])
      && (Smooth(old(script)) ==> rc == 0 && Smooth(script))
    }

    static lemma TakeMore(p: seq<byte>, done: nat, n: nat)
      requires done + n <= |p|
      ensures p[..done] + p[done..][..n] == p[..done + n]
    {
    }

    method WriteAll(p: seq<byte>) returns (rc: int)
      modifies this
      ensures Sent(p, rc)
    {
      var done: nat := 0;
      while done < |p|
        invariant done <= |p| && sent == old(sent) + p[..done]
        invariant Smooth(old(script)) ==> Smooth(script)
        decreases |script|, |p| - done
      {
        var o := Push(p[done..]);
        if o.Interrupted? { continue; }
        if o.Fault? { return -(o.errno as int); }
        if o.n == 0 { return EPIPE; }
        TakeMore(p, done, o.n);
        done := done + o.n;
      }
      assert p[..done] == p;
      rc := 0;
    }

    static lemma Joined(before: seq<byte>, all: seq<byte>, k: nat, n: nat)
      requires k <= n <= |all|
      ensures before + all[..k] + all[k..n] == before + all[..n]
    {
    }

    method SendFrame(opcode: nat, body: seq<byte>, nFds: nat) returns (rc: int)
      requires opcode < U16_LIMIT
      modifies this
      ensures |body| > MAX_BODY ==> rc == EMSGSIZE && sent == old(sent)
      ensures |body| <= MAX_BODY && nFds > MAX_FDS ==> rc == E2BIG && sent == old(sent)
      ensures |body| <= MAX_BODY && nFds <= MAX_FDS ==> Sent(Wire(Frame(opcode, body)), rc)
    {
      if |body| > MAX_BODY { return EMSGSIZE; }
      if nFds > MAX_FDS { return E2BIG; }
      var total := |body| + 4;
      var header: seq<byte> := [opcode % 256, opcode / 256 % 256, total % 256, total / 256 % 256];
      ghost var all := Wire(Frame(opcode, body));
      assert all == header + body;
      while true
        invariant sent == old(sent) && (Smooth(old(script)) ==> Smooth(script))
        decreases |script|
      {
        var o := Push(header + body);
        if o.Interrupted? { continue; }
        if o.Fault? {
          assert sent == old(sent) + all[..0];
          return -(o.errno as int);
        }
        if o.n == total { return 0; }
        ghost var before := old(sent);
        rc := Finish(header, body, o.n);
        if rc == 0 {
          assert all[o.n..|all|] == all[o.n..] && all[..|all|] == all;
          Joined(before, all, o.n, |all|);
        } else {
          ghost var n: nat :| o.n <= n < |all| && sent == before + all[..o.n] + all[o.n..n];
          Joined(before, all, o.n, n);
        }
        return;
      }
    }

    /** The rest of a frame after a short `sendmsg`: header first, then body. */
    method Finish(header: seq<byte>, body: seq<byte>, done: nat) returns (rc: int)
      requires |header| == 4 && done < |header + body|
      modifies this
      ensures rc == 0 ==> sent == old(sent) + (header + body)[done..]
      ensures rc != 0 ==> rc < 0 && exists n: nat :: done <= n < |header + body| && sent == old(sent) + (header + body)[done..n]
      ensures Smooth(old(script)) ==> rc == 0 && Smooth(script)
    {
      ghost var all := header + body;
      var headLeft := if done < 4 then 4 - done else 0;
      var bodyDone := if done < 4 then 0 else done - 4;
      ghost var at := done;
      if headLeft > 0 {
        rc := WriteAll(header[4 - headLeft..]);
        if rc < 0 {
          ghost var n: nat :| n < headLeft && sent == old(sent) + header[done..][..n];
          PartOfHeader(header, body, done, n);
          return;
        }
        PartOfHeader(header, body, done, headLeft);
        at := 4;
      }
      label Head:
      if |body| > bodyDone {
        rc := WriteAll(body[bodyDone..]);
        if rc < 0 {
          ghost var n: nat :| n < |body| - bodyDone && sent == old@Head(sent) + body[bodyDone..][..n];
          PartOfBody(old(sent), header, body, done, at, n);
          return;
        }
        PartOfBody(old(sent), header, body, done, at, |body| - bodyDone);
      }
      assert all[done..|all|] == all[done..];
      rc := 0;
    }

    static lemma PartOfHeader(header: seq<byte>, body: seq<byte>, done: nat, n: nat)
      requires |header| == 4 && done + n <= 4
      ensures header[done..][..n] == (header + body)[done..done + n]
      ensures done + n == 4 ==> header[done..] == (header + body)[done..4]
    {
    }

    static lemma PartOfBody(before: seq<byte>, header: seq<byte>, body: seq<byte>, done: nat, at: nat, n: nat)
      requires |header| == 4 && done <= at && at >= 4 && at - 4 + n <= |body|
      ensures before + (header + body)[done..at] + body[at - 4..][..n] == before + (header + body)[done..at + n]
      ensures at - 4 + n == |body| ==> body[at - 4..][..n] == body[at - 4..]
    {
      assert body[at - 4..][..n] == (header + body)[at..at + n];
    }
  }

  // ---------------------------------------------------------------- the receiving end

  datatype Received = Arrived(frame: Frame) | Failed(rc: int)

  /** The receiving end: the bytes the peer sent before it closed, and how reads will go. */
  class Receiver {
    var incoming: seq<byte>
    var script: seq<Outcome>

    constructor (incoming: seq<byte>, script: seq<Outcome>)
      ensures this.incoming == incoming && this.script == script
    {
      this.incoming, this.script := incoming, script;
    }

    /** `read`, and `recvmsg` apart from its descriptors: the bytes delivered, none at the end. */
    method Pull(most: nat) returns (o: Outcome, got: seq<byte>)
      modifies this
      ensures o == Answer(old(script), if most < |old(incoming)| then most else |old(incoming)|)
      ensures script == Later(old(script))
      ensures got == (if o.Moved? then old(incoming)[..o.n] else []) && old(incoming) == got + incoming
    {
      o := Answer(script, if most < |incoming| then most else |incoming|);
      script := Later(script);
      got := [];
      if o.Moved? { got, incoming := incoming[..o.n], incoming[o.n..]; }
    }

    /** The loop of `read_all`, and of the header phase: `len` bytes, or an error. */
    method ReadAll(len: nat) returns (rc: int, got: seq<byte>)
      modifies this
      ensures rc == 0 ==> len <= |old(incoming)| && got == old(incoming)[..len] && incoming == old(incoming)[len..]
      ensures rc <= 0
      ensures Smooth(old(script)) ==> Smooth(script) && rc == if len <= |old(incoming)| then 0 else ENOTCONN
    {
      got := [];
      while |got| < len
        invariant |got| <= len && old(incoming) == got + incoming
        invariant Smooth(old(script)) ==> Smooth(script)
        decreases |script|, len - |got|
      {
        var o, more := Pull(len - |got|);
        if o.Interrupted? { continue; }
        if o.Fault? { return -(o.errno as int), got; }
        if o.n == 0 { return ENOTCONN, got; }
        got := got + more;
      }
      rc := 0;
    }

    /** A received frame is the one the stream begins with; a smooth socket delivers it whenever it is
        there. */
    method RecvFrame() returns (r: Received)
      modifies this
      ensures r.Arrived? ==> Parse(old(incoming)) == Got(r.frame, incoming)
      ensures Smooth(old(script)) && Parse(old(incoming)).Got? ==> r.Arrived?
      ensures Smooth(old(script)) && Parse(old(incoming)).Bad? ==> r == Failed(Parse(old(incoming)).rc)
      ensures Smooth(old(script)) ==> Smooth(script)
    {
      var rc, header := ReadAll(4);
      if rc != 0 { return Failed(rc); }
      var opcode, total := header[0] as nat + 256 * header[1] as nat, header[2] as nat + 256 * header[3] as nat;
      if total < 4 { return Failed(WW_ERR_SHORT); }
      var rc', body := ReadAll(total - 4);
      if rc' != 0 { return Failed(rc'); }
      assert old(incoming)[4..][..total - 4] == old(incoming)[4..total];
      r := Arrived(Frame(opcode, body));
    }
  }

  // ---------------------------------------------------------------- end to end

  predicate AllWellSized(fs: seq<Frame>) { forall i :: 0 <= i < |fs| ==> WellSized(fs[i]) }

  lemma {:induction false} StreamMore(fs: seq<Frame>, f: Frame)
    ensures Stream(fs + [f]) == Stream(fs) + Wire(f)
  {
    if fs == [] {
      assert (fs + [f])[1..] == [];
    } else {
      assert (fs + [f])[1..] == fs[1..] + [f];
      StreamMore(fs[1..], f);
    }
  }

  /** The stream a sender leaves: whole frames, and perhaps a part of the next. */
  ghost predicate Cut(s: seq<byte>, fs: seq<Frame>, k: nat, n: nat) {
    k <= |fs| && if k == |fs| then n == 0 && s == Stream(fs)
                 else n < |Wire(fs[k])| && s == Stream(fs[..k]) + Wire(fs[k])[..n]
  }

  /** Frame after frame until one fails; `k` frames went out whole, and `n` bytes of the next. */
  method SendAll(sender: Sender, fs: seq<Frame>) returns (rc: int, ghost k: nat, ghost n: nat)
    requires AllWellSized(fs) && sender.sent == []
    modifies sender
    ensures Cut(sender.sent, fs, k, n) && (rc == 0 ==> k == |fs|)
    ensures Smooth(old(sender.script)) ==> rc == 0
  {
    for i := 0 to |fs|
      invariant sender.sent == Stream(fs[..i])
      invariant Smooth(old(sender.script)) ==> Smooth(sender.script)
    {
      label Before:
      rc := sender.SendFrame(fs[i].opcode, fs[i].body, 0);
      assert Wire(fs[i]) == Wire(Frame(fs[i].opcode, fs[i].body));
      if rc != 0 {
        n :| n < |Wire(fs[i])| && sender.sent == old@Before(sender.sent) + Wire(fs[i])[..n];
        return rc, i, n;
      }
      assert fs[..i + 1] == fs[..i] + [fs[i]];
      StreamMore(fs[..i], fs[i]);
    }
    assert fs[..|fs|] == fs;
    rc, k, n := 0, |fs|, 0;
  }

  /** Frame after frame until one does not come. What comes is what was sent, in order; on a smooth socket all
      of it comes. */
  method ReceiveAll(receiver: Receiver, ghost fs: seq<Frame>, ghost tail: seq<byte>) returns (got: seq<Frame>, rc: int)
    requires AllWellSized(fs) && Parse(tail).Bad? && receiver.incoming == Stream(fs) + tail
    modifies receiver
    ensures got <= fs
    ensures Smooth(old(receiver.script)) ==> got == fs && rc == Parse(tail).rc
  {
    hide Parse, Stream, WellSized;
    got := [];
    ghost var left := fs;
    while true
      invariant fs == got + left && AllWellSized(left) && receiver.incoming == Stream(left) + tail
      invariant Smooth(old(receiver.script)) ==> Smooth(receiver.script)
      decreases |left|
    {
      NextOf(left, tail);
      var r := receiver.RecvFrame();
      if r.Failed? { return got, r.rc; }
      got := got + [r.frame];
      left := left[1..];
    }
  }

  lemma NextOf(fs: seq<Frame>, tail: seq<byte>)
    requires AllWellSized(fs) && Parse(tail).Bad?
    ensures fs == [] ==> Parse(Stream(fs) + tail) == Parse(tail)
    ensures fs != [] ==> Parse(Stream(fs) + tail) == Got(fs[0], Stream(fs[1..]) + tail)
  {
    if fs == [] {
      assert Stream(fs) + tail == tail;
    } else {
      assert Stream(fs) + tail == Wire(fs[0]) + (Stream(fs[1..]) + tail);
      ParseOfWire(fs[0], Stream(fs[1..]) + tail);
    }
  }

  /** What is cut off is never taken for a frame. */
  lemma CutParsed(s: seq<byte>, fs: seq<Frame>, k: nat, n: nat)
    requires AllWellSized(fs) && Cut(s, fs, k, n)
    ensures var tail := if k == |fs| then [] else Wire(fs[k])[..n];
            s == Stream(fs[..k]) + tail && Parse(tail) == Bad(ENOTCONN)
  {
    if k == |fs| {
      assert fs[..k] == fs;
    } else {
      PartNeverParsed(fs[k], n);
    }
  }

  /** A connection from end to end, for any list of frames and any two kernels: whatever is received was sent,
      same opcodes and bodies in the same order, and nothing else is; a fault on the sending side alone costs
      only frames that were not sent whole, and without faults every frame arrives. */
  method Transfer(fs: seq<Frame>, sending: seq<Outcome>, receiving: seq<Outcome>)
    returns (sendRc: int, got: seq<Frame>, recvRc: int)
    requires AllWellSized(fs)
    ensures got <= fs
    ensures Smooth(receiving) ==> recvRc == ENOTCONN && (sendRc == 0 ==> got == fs)
    ensures Smooth(sending) ==> sendRc == 0
  {
    var sender := new Sender(sending);
    ghost var k, n;
    sendRc, k, n := SendAll(sender, fs);
    CutParsed(sender.sent, fs, k, n);
    var receiver := new Receiver(sender.sent, receiving);
    got, recvRc := ReceiveAll(receiver, fs[..k], if k == |fs| then [] else Wire(fs[k])[..n]);
    assert k == |fs| ==> fs[..k] == fs;
  }
}
