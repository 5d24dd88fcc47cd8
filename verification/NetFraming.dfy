/** Network messages as bytes: framing what arrives and queueing what leaves. */
module NetFraming {
  import opened Common

  type Byte = n: nat | n < 256

  const HEADER_SIZE: nat := 24
  const MAX_SIZE: nat := 0x0200_0000
  const MAX_PROTOCOL_MESSAGE_LENGTH: nat := 4000000

  // Reading a header gives the length of the message, or fails.
  type Lengths = seq<Byte> -> Option<nat>

  datatype Msg = Msg(hdr: seq<Byte>, inData: bool, data: seq<Byte>)

  // A header that is accepted: it can be read and announces a length within the limits.
  predicate Accepted(len: Lengths, hdr: seq<Byte>) {
    len(hdr).Some? && len(hdr).value <= MAX_SIZE && len(hdr).value <= MAX_PROTOCOL_MESSAGE_LENGTH
  }

  /** A message may announce up to four million bytes. */
  lemma AcceptedIff(len: Lengths, hdr: seq<Byte>)
    ensures Accepted(len, hdr) <==> len(hdr).Some? && len(hdr).value <= 4000000
  {
  }

  predicate Complete(len: Lengths, m: Msg) {
    m.inData && len(m.hdr) == Some(|m.data|)
  }

  ghost predicate Sound(len: Lengths, m: Msg) {
    if m.inData then |m.hdr| == HEADER_SIZE && Accepted(len, m.hdr) && |m.data| <= len(m.hdr).value
    else 0 < |m.hdr| < HEADER_SIZE && m.data == []
  }

  // Messages in order of arrival: all but the last are complete.
  ghost predicate Stream(len: Lengths, ms: seq<Msg>) {
    (forall i :: 0 <= i < |ms| ==> Sound(len, ms[i])) && forall i :: 0 <= i < |ms| - 1 ==> Complete(len, ms[i])
  }

  function Bytes(ms: seq<Msg>): seq<Byte> {
    if ms == [] then [] else Bytes(ms[..|ms| - 1]) + ms[|ms| - 1].hdr + ms[|ms| - 1].data
  }

  lemma {:induction false} BytesFirst(ms: seq<Msg>)
    requires ms != []
    ensures Bytes(ms) == ms[0].hdr + ms[0].data + Bytes(ms[1..])
  {
    hide Bytes;
    var n := |ms| - 1;
    BytesLast(ms);
    if n == 0 {
      assert ms[..0] == [] && ms[1..] == [];
      NoBytes(ms[0].hdr, ms[0].data);
    } else {
      BytesFirst(ms[..n]);
      assert ms[..n][1..] == ms[1..][..n - 1];
      BytesLast(ms[1..]);
      Regroup(ms[0].hdr + ms[0].data, Bytes(ms[1..][..n - 1]), ms[n].hdr, ms[n].data);
    }
  }

  lemma NoBytes(hdr: seq<Byte>, data: seq<Byte>)
    ensures Bytes([]) + hdr + data == hdr + data + Bytes([])
  {
  }

  lemma BytesLast(ms: seq<Msg>)
    requires ms != []
    ensures Bytes(ms) == Bytes(ms[..|ms| - 1]) + ms[|ms| - 1].hdr + ms[|ms| - 1].data
  {
  }

  lemma Regroup<T>(a: seq<T>, b: seq<T>, c: seq<T>, d: seq<T>)
    ensures (a + b) + c + d == a + (b + c + d)
  {
  }

  // --- The grammar ---

  datatype Parsed = Parsed(ms: seq<Msg>, ok: bool)

  // How a string of bytes splits into messages; a header that is not accepted ends it.
  function Parse(len: Lengths, b: seq<Byte>): Parsed
    decreases |b|
  {
    if b == [] then Parsed([], true)
    else if |b| < HEADER_SIZE then Parsed([Msg(b, false, [])], true)
    else
      var hdr := b[..HEADER_SIZE];
      if !Accepted(len, hdr) then Parsed([], false)
      else
        var end := HEADER_SIZE + len(hdr).value;
        if |b| <= end then Parsed([Msg(hdr, true, b[HEADER_SIZE..])], true)
        else
          var rest := Parse(len, b[end..]);
          Parsed([Msg(hdr, true, b[HEADER_SIZE..end])] + rest.ms, rest.ok)
  }

  // One complete message in front.
  lemma ParseFirst(len: Lengths, m: Msg, rest: seq<Byte>)
    requires Sound(len, m) && Complete(len, m) && rest != []
    ensures Parse(len, m.hdr + m.data + rest) == (var p := Parse(len, rest); Parsed([m] + p.ms, p.ok))
  {
    var b := m.hdr + m.data + rest;
    assert b[..HEADER_SIZE] == m.hdr;
    var end := HEADER_SIZE + |m.data|;
    assert b[HEADER_SIZE..end] == m.data && b[end..] == rest;
  }

  /** A stream of messages is the parse of its bytes. */
  lemma {:induction false} ParseStream(len: Lengths, ms: seq<Msg>)
    requires Stream(len, ms)
    ensures Parse(len, Bytes(ms)) == Parsed(ms, true)
    decreases |ms|
  {
    if ms != [] {
      BytesFirst(ms);
      var m := ms[0];
      ParseStream(len, ms[1..]);
      if |ms| == 1 {
        assert ms == [m] && Bytes(ms[1..]) == [];
        var b := m.hdr + m.data;
        assert Bytes(ms) == b;
        if m.inData {
          assert b[..HEADER_SIZE] == m.hdr && b[HEADER_SIZE..] == m.data;
        } else {
          assert b == m.hdr;
        }
      } else {
        BytesNotEmpty(len, ms[1..]);
        ParseFirst(len, m, Bytes(ms[1..]));
        assert ms == [m] + ms[1..];
      }
    }
  }

  lemma BytesNotEmpty(len: Lengths, ms: seq<Msg>)
    requires Stream(len, ms) && ms != []
    ensures Bytes(ms) != []
  {
    BytesFirst(ms);
    assert Sound(len, ms[0]);
  }

  // Complete messages followed by a header that is not accepted.
  lemma {:induction false} ParseBad(len: Lengths, ms: seq<Msg>, b: seq<Byte>)
    requires (forall i :: 0 <= i < |ms| ==> Sound(len, ms[i]) && Complete(len, ms[i])) && |b| >= HEADER_SIZE && !Accepted(len, b[..HEADER_SIZE])
    ensures !Parse(len, Bytes(ms) + b).ok
    decreases |ms|
  {
    if ms == [] {
      assert Bytes(ms) + b == b;
    } else {
      ParseBad(len, ms[1..], b);
      BytesFirst(ms);
      var rest := Bytes(ms[1..]) + b;
      assert Bytes(ms) + b == ms[0].hdr + ms[0].data + rest;
      ParseFirst(len, ms[0], rest);
    }
  }

  // --- Receiving ---

  method ReadHeader(len: Lengths, m: Msg, pch: seq<Byte>) returns (handled: int, r: Msg)
    requires !m.inData && |m.hdr| < HEADER_SIZE && m.data == [] && pch != []
    ensures handled >= 0 ==> 1 <= handled <= |pch| && r.hdr == m.hdr + pch[..handled] && r.data == []
    ensures handled >= 0 ==> |r.hdr| <= HEADER_SIZE && (r.inData <==> |r.hdr| == HEADER_SIZE)
    ensures handled >= 0 && r.inData ==> len(r.hdr).Some? && len(r.hdr).value <= MAX_SIZE
    ensures handled < 0 ==> |m.hdr| + |pch| >= HEADER_SIZE && !Accepted(len, (m.hdr + pch)[..HEADER_SIZE])
  {
    var nRemaining := HEADER_SIZE - |m.hdr|;
    var nCopy := Min(nRemaining, |pch|);
    r := m.(hdr := m.hdr + pch[..nCopy]);
    if |r.hdr| < HEADER_SIZE {
      return nCopy, r;
    }
    assert r.hdr == (m.hdr + pch)[..HEADER_SIZE];
    if len(r.hdr).None? {
      return -1, r;
    }
    if len(r.hdr).value > MAX_SIZE {
      return -1, r;
    }
    r := r.(inData := true);
    return nCopy, r;
  }

  method ReadData(len: Lengths, m: Msg, pch: seq<Byte>) returns (handled: int, r: Msg)
    requires m.inData && len(m.hdr).Some? && |m.data| < len(m.hdr).value && pch != []
    ensures 1 <= handled <= |pch| && r == m.(data := m.data + pch[..handled]) && |r.data| <= len(r.hdr).value
  {
    var nRemaining := len(m.hdr).value - |m.data|;
    var nCopy := Min(nRemaining, |pch|);
    r := m.(data := m.data + pch[..nCopy]);
    handled := nCopy;
  }

  // The message being received, at the end of the list; a new one starts when there is none.
  ghost predicate Opened(len: Lengths, ms: seq<Msg>, b: seq<Byte>) {
    && ms != [] && (forall i :: 0 <= i < |ms| - 1 ==> Sound(len, ms[i]) && Complete(len, ms[i]))
    && (var m := ms[|ms| - 1];
        && !Complete(len, m) && Bytes(ms) == b
        && if m.inData then Sound(len, m) else |m.hdr| < HEADER_SIZE && m.data == [])
  }

  class Receiver {
    const len: Lengths
    var vRecvMsg: seq<Msg>

    constructor (lengths: Lengths)
      ensures len == lengths && vRecvMsg == []
    {
      len, vRecvMsg := lengths, [];
    }

    /**
     * However the bytes are cut up, what has been received is the parse of all of them. The call fails exactly when
     * those bytes contain a header that is not accepted.
     */
    method ReceiveMsgBytes(bytes: seq<Byte>) returns (ok: bool, complete: bool)
      requires Stream(len, vRecvMsg)
      modifies this
      ensures ok ==> Stream(len, vRecvMsg) && Bytes(vRecvMsg) == Bytes(old(vRecvMsg)) + bytes
      ensures ok <==> Parse(len, Bytes(old(vRecvMsg)) + bytes).ok
      ensures ok ==> vRecvMsg == Parse(len, Bytes(old(vRecvMsg)) + bytes).ms
      ensures ok ==> (complete <==> Finished(len, vRecvMsg) > Finished(len, old(vRecvMsg)))
    {
      hide Stream, Bytes, Parse, Complete;
      complete := false;
      var pch := bytes;
      ghost var taken: seq<Byte> := [];
      assert Bytes(vRecvMsg) + [] == Bytes(vRecvMsg);
      while pch != []
        invariant Stream(len, vRecvMsg) && bytes == taken + pch && Bytes(vRecvMsg) == Bytes(old(vRecvMsg)) + taken
        invariant Finished(len, vRecvMsg) >= Finished(len, old(vRecvMsg))
        invariant complete <==> Finished(len, vRecvMsg) > Finished(len, old(vRecvMsg))
        decreases |pch|
      {
        assert Bytes(vRecvMsg) + pch == Bytes(old(vRecvMsg)) + bytes;
        var handled;
        handled, vRecvMsg := Absorb(len, vRecvMsg, pch);
        if handled < 0 {
          return false, complete;
        }
        assert taken + pch == (taken + pch[..handled]) + pch[handled..];
        taken := taken + pch[..handled];
        pch := pch[handled..];
        if Complete(len, vRecvMsg[|vRecvMsg| - 1]) {
          complete := true;
        }
      }
      assert taken + pch == taken == bytes;
      ParseStream(len, vRecvMsg);
      return true, complete;
    }
  }

  // How many messages have arrived in full.
  function Finished(len: Lengths, ms: seq<Msg>): nat {
    if ms == [] then 0 else if Complete(len, ms[|ms| - 1]) then |ms| else |ms| - 1
  }

  // One round: into the current message, or a new one, as much as it takes.
  method Absorb(len: Lengths, ms: seq<Msg>, pch: seq<Byte>) returns (handled: int, r: seq<Msg>)
    requires Stream(len, ms) && pch != []
    ensures handled >= 0 ==> 1 <= handled <= |pch| && r != [] && Stream(len, r) && Bytes(r) == Bytes(ms) + pch[..handled]
    ensures handled >= 0 ==> Finished(len, r) == Finished(len, ms) + if Complete(len, r[|r| - 1]) then 1 else 0
    ensures handled < 0 ==> !Parse(len, Bytes(ms) + pch).ok
  {
    hide Stream, Opened, Bytes, Parse, Complete;
    OpenNext(len, ms);
    r := ms;
    if r == [] || Complete(len, r[|r| - 1]) {
      r := r + [Msg([], false, [])];
    }
    OpenedFacts(len, r, Bytes(ms));
    var m := r[|r| - 1];
    if !m.inData {
      handled, m := ReadHeader(len, m, pch);
    } else {
      handled, m := ReadData(len, m, pch);
    }
    if handled < 0 {
      BadHeader(len, r, Bytes(ms), pch);
      return;
    }
    if m.inData && len(m.hdr).value > MAX_PROTOCOL_MESSAGE_LENGTH {
      TooLong(len, r, Bytes(ms), pch, handled);
      return -1, r;
    }
    Closed(len, r, Bytes(ms), pch, handled, m);
    r := r[|r| - 1 := m];
  }

  lemma OpenNext(len: Lengths, ms: seq<Msg>)
    requires Stream(len, ms)
    ensures var ms' := if ms == [] || Complete(len, ms[|ms| - 1]) then ms + [Msg([], false, [])] else ms;
            Opened(len, ms', Bytes(ms)) && Bytes(ms') == Bytes(ms)
  {
    var new' := ms + [Msg([], false, [])];
    assert new'[..|ms|] == ms;
  }

  lemma OpenedFacts(len: Lengths, ms: seq<Msg>, b: seq<Byte>)
    requires Opened(len, ms, b)
    ensures ms != [] && var m := ms[|ms| - 1];
            if m.inData then len(m.hdr).Some? && |m.data| < len(m.hdr).value && |m.hdr| == HEADER_SIZE && Accepted(len, m.hdr) else |m.hdr| < HEADER_SIZE && m.data == []
  {
  }

  // The list before the last message, and its bytes.
  lemma LastMessage(len: Lengths, ms: seq<Msg>, b: seq<Byte>)
    requires Opened(len, ms, b)
    ensures var m := ms[|ms| - 1]; b == Bytes(ms[..|ms| - 1]) + m.hdr + m.data
  {
  }

  lemma BadHeader(len: Lengths, ms: seq<Msg>, b: seq<Byte>, pch: seq<Byte>)
    requires Opened(len, ms, b) && !ms[|ms| - 1].inData
    requires |ms[|ms| - 1].hdr| + |pch| >= HEADER_SIZE && !Accepted(len, (ms[|ms| - 1].hdr + pch)[..HEADER_SIZE])
    ensures !Parse(len, b + pch).ok
  {
    hide Bytes, Parse, Accepted;
    var m := ms[|ms| - 1];
    LastMessage(len, ms, b);
    var front := ms[..|ms| - 1];
    ParseBad(len, front, m.hdr + pch);
    Regroup(Bytes(front), m.hdr, pch, []);
    assert b + pch == Bytes(front) + (m.hdr + pch);
  }

  lemma TooLong(len: Lengths, ms: seq<Msg>, b: seq<Byte>, pch: seq<Byte>, handled: nat)
    requires Opened(len, ms, b) && handled <= |pch|
    requires var m := ms[|ms| - 1]; !m.inData && |m.hdr + pch[..handled]| == HEADER_SIZE && !Accepted(len, m.hdr + pch[..handled])
    ensures !Parse(len, b + pch).ok
  {
    var m := ms[|ms| - 1];
    assert (m.hdr + pch)[..HEADER_SIZE] == m.hdr + pch[..handled];
    BadHeader(len, ms, b, pch);
  }

  // The last message with what was absorbed makes a stream again.
  lemma Closed(len: Lengths, ms: seq<Msg>, b: seq<Byte>, pch: seq<Byte>, handled: nat, m': Msg)
    requires Opened(len, ms, b) && 1 <= handled <= |pch|
    requires var m := ms[|ms| - 1];
             if m.inData then m' == m.(data := m.data + pch[..handled]) && Accepted(len, m.hdr) && |m'.data| <= len(m'.hdr).value
             else && m'.hdr == m.hdr + pch[..handled] && m'.data == [] && |m'.hdr| <= HEADER_SIZE && (m'.inData <==> |m'.hdr| == HEADER_SIZE)
                  && (m'.inData ==> Accepted(len, m'.hdr))
    ensures var ms' := ms[|ms| - 1 := m']; Stream(len, ms') && Bytes(ms') == b + pch[..handled]
  {
    var n := |ms| - 1;
    var ms' := ms[n := m'];
    LastMessage(len, ms, b);
    assert ms'[..n] == ms[..n];
  }

  // --- Sending ---

  function Joined(q: seq<seq<Byte>>): seq<Byte> {
    if q == [] then [] else Joined(q[..|q| - 1]) + q[|q| - 1]
  }

  lemma {:induction false} JoinedFirst(q: seq<seq<Byte>>)
    requires q != []
    ensures Joined(q) == q[0] + Joined(q[1..])
  {
    var n := |q| - 1;
    if n == 0 {
      assert q[..0] == [] && q[1..] == [];
    } else {
      hide Joined;
      JoinedFirst(q[..n]);
      assert q[..n][1..] == q[1..][..n - 1];
      JoinedLast(q);
      JoinedLast(q[1..]);
      Regroup(q[0], Joined(q[1..][..n - 1]), q[n], []);
    }
  }

  lemma JoinedLast(q: seq<seq<Byte>>)
    requires q != []
    ensures Joined(q) == Joined(q[..|q| - 1]) + q[|q| - 1] && Joined(q[..|q| - 1]) + q[|q| - 1] + [] == Joined(q)
  {
  }

  function Total(q: seq<seq<Byte>>): nat {
    if q == [] then 0 else Total(q[..|q| - 1]) + |q[|q| - 1]|
  }

  lemma {:induction false} TotalIsLength(q: seq<seq<Byte>>)
    ensures Total(q) == |Joined(q)|
  {
    if q != [] {
      TotalIsLength(q[..|q| - 1]);
    }
  }

  // No part is empty, and the offset is inside the first part.
  predicate Queued(q: seq<seq<Byte>>, offset: nat) {
    (forall i :: 0 <= i < |q| ==> q[i] != []) && if q == [] then offset == 0 else offset < |q[0]|
  }

  // What has not been sent.
  function Pending(q: seq<seq<Byte>>, offset: nat): seq<Byte>
    requires offset <= |Joined(q)|
  {
    Joined(q)[offset..]
  }

  lemma OffsetInside(q: seq<seq<Byte>>, offset: nat)
    requires Queued(q, offset)
    ensures offset <= |Joined(q)|
  {
    if q != [] {
      JoinedFirst(q);
    }
  }

  // nBytes of the first part leave; the part goes when it is done.
  lemma SendSome(q: seq<seq<Byte>>, offset: nat, n: nat)
    requires Queued(q, offset) && q != [] && 1 <= n <= |q[0]| - offset
    ensures offset <= |Joined(q)| && n <= |Pending(q, offset)|
    ensures Pending(q, offset)[..n] == q[0][offset..offset + n]
    ensures offset + n < |q[0]| ==> offset + n <= |Joined(q)| && Pending(q, offset + n) == Pending(q, offset)[n..]
    ensures offset + n == |q[0]| ==> Joined(q[1..]) == Pending(q, offset)[n..] && Total(q[1..]) == Total(q) - |q[0]|
  {
    JoinedFirst(q);
    TotalIsLength(q);
    TotalIsLength(q[1..]);
    var b := Joined(q);
    assert b[offset..][..n] == b[offset..offset + n] == q[0][offset..offset + n];
  }

  /** Everything pushed is what was sent followed by what is still queued, and the counters say how much. */
  ghost predicate Balanced(q: seq<seq<Byte>>, offset: nat, size: nat, bytes: nat, pushed: seq<Byte>, sent: seq<Byte>) {
    && Queued(q, offset) && offset <= |Joined(q)|
    && pushed == sent + Pending(q, offset)
    && size == Total(q) && bytes == |sent|
  }

  lemma SendKeeps(q: seq<seq<Byte>>, offset: nat, size: nat, bytes: nat, pushed: seq<Byte>, sent: seq<Byte>, n: nat)
    requires Balanced(q, offset, size, bytes, pushed, sent) && q != [] && 1 <= n <= |q[0]| - offset
    ensures var sent' := sent + q[0][offset..offset + n];
            if offset + n < |q[0]| then Balanced(q, offset + n, size, bytes + n, pushed, sent')
            else |q[0]| <= size && Balanced(q[1..], 0, size - |q[0]|, bytes + n, pushed, sent')
  {
    hide Joined, Total;
    SendSome(q, offset, n);
    var p := Pending(q, offset);
    assert p == p[..n] + p[n..];
    assert sent + p[..n] + p[n..] == pushed;
  }

  lemma PushKeeps(q: seq<seq<Byte>>, offset: nat, size: nat, bytes: nat, pushed: seq<Byte>, sent: seq<Byte>, part: seq<Byte>)
    requires Balanced(q, offset, size, bytes, pushed, sent) && part != []
    ensures Balanced(q + [part], offset, size + |part|, bytes, pushed + part, sent)
  {
    hide Joined, Total;
    PushPart(q, offset, part);
    assert sent + (Pending(q, offset) + part) == pushed + part;
  }

  lemma BalancedFacts(q: seq<seq<Byte>>, offset: nat, size: nat, bytes: nat, pushed: seq<Byte>, sent: seq<Byte>)
    requires Balanced(q, offset, size, bytes, pushed, sent)
    ensures q != [] ==> offset < |q[0]|
    ensures q == [] ==> offset == 0 && size == 0
  {
  }

  // The socket takes every queued part whole.
  predicate TakesAll(q: seq<seq<Byte>>, takes: seq<nat>) {
    |q| <= |takes| && forall k :: 0 <= k < |q| ==> |q[k]| <= takes[k]
  }

  class Sender {
    const nSendBufferMaxSize: nat
    var vSendMsg: seq<seq<Byte>>
    var nSendOffset: nat
    var nSendSize: nat
    var nSendBytes: nat
    var fPauseSend: bool
    // Everything that was pushed, and everything the socket took.
    ghost var pushed: seq<Byte>
    ghost var sent: seq<Byte>

    ghost predicate Valid()
      reads this
    {
      && Balanced(vSendMsg, nSendOffset, nSendSize, nSendBytes, pushed, sent)
      && (fPauseSend <==> nSendSize > nSendBufferMaxSize)
    }

    constructor (maxSize: nat)
      ensures Valid() && pushed == [] && sent == [] && vSendMsg == []
    {
      nSendBufferMaxSize := maxSize;
      vSendMsg, nSendOffset, nSendSize, nSendBytes, fPauseSend := [], 0, 0, 0, false;
      pushed, sent := [], [];
    }

    // Send until the socket takes less than it was given; `takes` says what it does each time.
    method SocketSendData(takes: seq<nat>) returns (nSentSize: nat)
      requires Valid()
      modifies this
      ensures Valid() && pushed == old(pushed) && old(sent) <= sent && |sent| == |old(sent)| + nSentSize
      ensures vSendMsg == [] ==> nSendOffset == 0 && nSendSize == 0
      ensures TakesAll(old(vSendMsg), takes) ==> vSendMsg == []
      ensures nSentSize == 0 <==> old(vSendMsg) == [] || takes == [] || takes[0] == 0
    {
      hide Balanced;
      nSentSize := 0;
      var it := 0;
      assert vSendMsg[0..] == vSendMsg;
      while it < |vSendMsg|
        invariant it <= |vSendMsg| && vSendMsg == old(vSendMsg) && pushed == old(pushed)
        invariant Balanced(vSendMsg[it..], nSendOffset, nSendSize, nSendBytes, pushed, sent)
        invariant fPauseSend <==> nSendSize > nSendBufferMaxSize
        invariant old(sent) <= sent && |sent| == |old(sent)| + nSentSize
        invariant (nSentSize == 0 <==> it == 0) && (it > 0 ==> takes != [] && takes[0] > 0)
      {
        var data := vSendMsg[it];
        BalancedFacts(vSendMsg[it..], nSendOffset, nSendSize, nSendBytes, pushed, sent);
        assert |data| > nSendOffset;
        var nBytes := if it < |takes| then Min(takes[it], |data| - nSendOffset) else 0;
        if nBytes > 0 {
          SendKeeps(vSendMsg[it..], nSendOffset, nSendSize, nSendBytes, pushed, sent, nBytes);
          sent := sent + data[nSendOffset..nSendOffset + nBytes];
          nSendBytes := nSendBytes + nBytes;
          nSendOffset := nSendOffset + nBytes;
          nSentSize := nSentSize + nBytes;
          if nSendOffset == |data| {
            nSendOffset := 0;
            nSendSize := nSendSize - |data|;
            fPauseSend := nSendSize > nSendBufferMaxSize;
            assert vSendMsg[it..][1..] == vSendMsg[it + 1..];
            it := it + 1;
          } else {
            break;
          }
        } else {
          break;
        }
      }
      BalancedFacts(vSendMsg[it..], nSendOffset, nSendSize, nSendBytes, pushed, sent);
      vSendMsg := vSendMsg[it..];
    }

    // Queue a header and, if there is any, its data; send at once if nothing was waiting.
    method PushMessage(header: seq<Byte>, data: seq<Byte>, takes: seq<nat>) returns (nBytesSent: nat)
      requires Valid() && |header| == HEADER_SIZE
      modifies this
      ensures Valid() && pushed == old(pushed) + header + data
      ensures old(sent) <= sent && |sent| == |old(sent)| + nBytesSent
      ensures old(vSendMsg) != [] ==> nBytesSent == 0
      ensures old(vSendMsg) == [] && TakesAll([header, data], takes) ==> sent == pushed
    {
      hide Balanced;
      var optimisticSend := vSendMsg == [];
      PushKeeps(vSendMsg, nSendOffset, nSendSize, nSendBytes, pushed, sent, header);
      nSendSize := nSendSize + |data| + HEADER_SIZE;
      if nSendSize > nSendBufferMaxSize {
        fPauseSend := true;
      }
      vSendMsg := vSendMsg + [header];
      if data != [] {
        PushKeeps(vSendMsg, nSendOffset, nSendSize - |data|, nSendBytes, pushed + header, sent, data);
        vSendMsg := vSendMsg + [data];
      }
      assert data == [] ==> pushed + header + data == pushed + header;
      pushed := pushed + header + data;
      nBytesSent := 0;
      if optimisticSend {
        nBytesSent := SocketSendData(takes);
        NothingPending(vSendMsg, nSendOffset, nSendSize, nSendBytes, pushed, sent);
      }
    }
  }

  lemma NothingPending(q: seq<seq<Byte>>, offset: nat, size: nat, bytes: nat, pushed: seq<Byte>, sent: seq<Byte>)
    requires Balanced(q, offset, size, bytes, pushed, sent)
    ensures q == [] ==> sent == pushed
  {
  }

  lemma PushPart(q: seq<seq<Byte>>, offset: nat, part: seq<Byte>)
    requires Queued(q, offset) && part != []
    ensures Queued(q + [part], offset) && offset <= |Joined(q)| <= |Joined(q + [part])|
    ensures Pending(q + [part], offset) == Pending(q, offset) + part && Total(q + [part]) == Total(q) + |part|
  {
    OffsetInside(q, offset);
    assert (q + [part])[..|q|] == q;
  }

  // --- From one end to the other ---

  lemma {:induction false} PrefixParses(len: Lengths, b: seq<Byte>, k: nat)
    requires k <= |b| && Parse(len, b).ok
    ensures Parse(len, b[..k]).ok
    decreases |b|
  {
    if HEADER_SIZE <= k {
      assert b[..k][..HEADER_SIZE] == b[..HEADER_SIZE];
      var end := HEADER_SIZE + len(b[..HEADER_SIZE]).value;
      if end < k {
        assert b[..k][end..] == b[end..][..k - end];
        PrefixParses(len, b[end..], k - end);
      }
    }
  }

  /** Messages that were framed correctly arrive as they were sent, whatever pieces the network delivers. */
  method Deliver(len: Lengths, ms: seq<Msg>, pieces: seq<seq<Byte>>) returns (received: seq<Msg>)
    requires Stream(len, ms) && Joined(pieces) == Bytes(ms)
    ensures received == ms
  {
    hide Stream, Bytes, Parse;
    var r := new Receiver(len);
    ghost var all := Bytes(ms);
    NothingReceived(len);
    ParseStream(len, ms);
    for i := 0 to |pieces|
      invariant r.len == len && fresh(r) && Stream(len, r.vRecvMsg) && Bytes(r.vRecvMsg) == Joined(pieces[..i])
    {
      assert pieces[..i + 1][..i] == pieces[..i];
      JoinedPrefix(pieces, i + 1);
      PrefixParses(len, all, |Joined(pieces[..i + 1])|);
      var ok, complete := r.ReceiveMsgBytes(pieces[i]);
    }
    assert pieces[..|pieces|] == pieces;
    ParseStream(len, r.vRecvMsg);
    return r.vRecvMsg;
  }

  lemma NothingReceived(len: Lengths)
    ensures Stream(len, []) && Bytes([]) == []
  {
  }

  lemma {:induction false} JoinedPrefix(q: seq<seq<Byte>>, k: nat)
    requires k <= |q|
    ensures |Joined(q[..k])| <= |Joined(q)| && Joined(q[..k]) == Joined(q)[..|Joined(q[..k])|]
  {
    if k == |q| {
      assert q[..k] == q;
    } else {
      var n := |q| - 1;
      JoinedPrefix(q[..n], k);
      assert q[..n][..k] == q[..k];
    }
  }
}
