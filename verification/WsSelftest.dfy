/** The client's half of the framing, and what a client that follows RFC 6455, section 5.4,
    gets back from the echo server. */
module WsSelftest {
  import opened WsCodec
  import opened WsEcho

  const MASK: seq<Byte> := [0x12, 0x34, 0x56, 0x78]

  // ----- the client's printer and parser -----

  /** A client frame header, for lengths of up to 65535 bytes. */
  method BuildHeader(hdr: array<Byte>, fin: bool, rsv: Byte, opcode: nat, masked: bool, len: nat) returns (h: nat)
    requires hdr.Length >= 4 && opcode < 16 && len <= 0xFFFF
    modifies hdr
    ensures h == 1 + |LengthField(len)| <= 4 && hdr[4..] == old(hdr[4..])
    ensures hdr[0] == (if fin then 128 else 0) + rsv / 16 % 8 * 16 + opcode
    ensures hdr[1] == (if masked then 128 else 0) + LengthField(len)[0] && hdr[2..h] == LengthField(len)[1..]
  {
    h := 0;
    hdr[h] := (if fin then 128 else 0) + rsv / 16 % 8 * 16 + opcode;
    h := h + 1;
    var m := if masked then 128 else 0;
    if len < 126 {
      hdr[h] := m + len;
      h := h + 1;
    } else {
      hdr[h] := m + 126;
      hdr[h + 1] := len / 256;
      hdr[h + 2] := len % 256;
      h := h + 3;
      assert ToBigEndian(len, 2) == [len / 256, len % 256];
    }
  }

  method MaskInto(out: array<Byte>, h: nat, p: array<Byte>, len: nat)
    requires len <= p.Length && h + 4 + len <= out.Length && out != p
    modifies out
    ensures out[..h] == old(out[..h]) && out[h..h + 4 + len] == MASK + Masked(p[..len], MASK)
  {
    forall i | 0 <= i < 4 {
      out[h + i] := MASK[i];
    }
    for i := 0 to len
      invariant out[..h] == old(out[..h]) && out[h..h + 4] == MASK
      invariant forall j :: 0 <= j < i ==> out[h + 4 + j] == Xor(p[j], MASK[j % 4])
    {
      out[h + 4 + i] := Xor(p[i], MASK[i % 4]);
    }
    assert out[h + 4..h + 4 + len] == Masked(p[..len], MASK);
    assert out[h..h + 4 + len] == out[h..h + 4] + out[h + 4..h + 4 + len];
  }

  /** A masked client frame. */
  method BuildFrame(out: array<Byte>, fin: bool, opcode: nat, p: array<Byte>, len: nat) returns (n: nat)
    requires opcode < 16 && len <= 0xFFFF && len <= p.Length && out.Length >= len + 8 && out != p
    modifies out
    ensures n <= len + 8 && out[..n] == ClientFrame(Frame(fin, opcode, MASK, p[..len]))
  {
    hide Masked;
    var h := BuildHeader(out, fin, 0, opcode, true, len);
    ghost var front := out[..h];
    assert front == [out[0], out[1]] + out[2..h];
    MaskInto(out, h, p, len);
    n := h + 4 + len;
    assert out[..n] == out[..h] + out[h..n];
    assert front + (MASK + Masked(p[..len], MASK)) == front + MASK + Masked(p[..len], MASK);
  }

  /** Exactly `n` bytes, or -1. */
  method ReadExact(socket: Socket, buf: array<Byte>, n: nat) returns (rc: int)
    requires n <= buf.Length
    modifies socket`input, socket`pieces, buf
    ensures rc == 0 || rc == -1
    ensures rc == 0 <==> n <= |old(socket.input)|
    ensures rc == 0 ==> buf[..n] == old(socket.input)[..n] && socket.input == old(socket.input)[n..]
  {
    ghost var all := socket.input;
    var off := 0;
    while off < n
      invariant off <= n && off <= |all| && buf[..off] == all[..off] && socket.input == all[off..]
    {
      var r := socket.Read(buf, off, n - off);
      if r <= 0 {
        return -1;
      }
      assert all[..off + r] == all[..off] + all[off..][..r];
      assert all[off..][r..] == all[off + r..];
      off := off + r;
    }
    rc := 0;
  }

  /** One server frame of at most `cap` bytes; -1 if it is masked, too long or cut short. */
  method ClientRecv(socket: Socket, p: array<Byte>, cap: nat) returns (rc: int, opcode: nat, len: nat)
    requires cap <= p.Length
    modifies socket`input, socket`pieces, p
    ensures rc == (if ParseServer(old(socket.input), cap).Failed? then -1 else 0)
    ensures rc == 0 ==>
      var r := ParseServer(old(socket.input), cap);
      && opcode == r.opcode && len == |r.payload| <= cap && p[..len] == r.payload
      && socket.input == old(socket.input)[r.size..]
  {
    hide BigEndian;
    ghost var all := socket.input;
    opcode, len := 0, 0;
    var b := new Byte[2](_ => 0);
    rc := ReadExact(socket, b, 2);
    if rc < 0 {
      return;
    }
    assert b[0] == b[..2][0] == all[0] && b[1] == b[..2][1] == all[1];
    opcode := b[0] % 16;
    if b[1] / 128 == 1 {
      return -1, opcode, 0;
    }
    var n;
    rc, n := ReadLength(socket, b[1]);
    if rc < 0 {
      return;
    }
    ghost var h := 2 + Extended(b[1]);
    Slices(all, 2, h - 2);
    if n > cap {
      return -1, opcode, 0;
    }
    rc := ReadPayload(socket, p, n);
    if rc < 0 {
      return;
    }
    Slices(all, h, n);
    len := n;
  }

  lemma Slices(s: seq<Byte>, from: nat, n: nat)
    requires from <= |s|
    ensures from + n <= |s| ==> s[from..][..n] == s[from..from + n] && s[from..][n..] == s[from + n..]
  {
  }

  method ReadPayload(socket: Socket, p: array<Byte>, n: nat) returns (rc: int)
    requires n <= p.Length
    modifies socket`input, socket`pieces, p
    ensures rc == if n <= |old(socket.input)| then 0 else -1
    ensures rc == 0 ==> p[..n] == old(socket.input)[..n] && socket.input == old(socket.input)[n..]
  {
    rc := 0;
    if n > 0 {
      rc := ReadExact(socket, p, n);
    }
  }

  method ReadLength(socket: Socket, n7: nat) returns (rc: int, n: nat)
    modifies socket`input, socket`pieces
    ensures rc == 0 || rc == -1
    ensures rc == 0 <==> Extended(n7) <= |old(socket.input)|
    ensures rc == 0 ==>
      && socket.input == old(socket.input)[Extended(n7)..]
      && n == if Extended(n7) == 0 then n7 else BigEndian(old(socket.input)[..Extended(n7)])
  {
    rc, n := 0, n7;
    if n7 == 126 || n7 == 127 {
      var e := new Byte[if n7 == 126 then 2 else 8](_ => 0);
      rc := ReadExact(socket, e, e.Length);
      if rc < 0 {
        return;
      }
      n := 0;
      for i := 0 to e.Length
        invariant n == BigEndian(e[..i]) && socket.input == old(socket.input)[e.Length..]
        invariant e[..] == old(socket.input)[..e.Length]
      {
        n := n * 256 + e[i];
        assert e[..i + 1][..i] == e[..i];
      }
      assert e[..e.Length] == e[..];
    } else {
      assert socket.input[0..] == socket.input;
    }
  }

  // ----- what a client gets back -----

  /** A ping or an unasked pong between fragments. */
  datatype Control = Control(ping: bool, mask: seq<Byte>, payload: seq<Byte>)

  datatype Fragment = Fragment(before: seq<Control>, mask: seq<Byte>, payload: seq<Byte>)

  datatype Message = Message(opcode: nat, fragments: seq<Fragment>)

  predicate LegalControls(cs: seq<Control>) {
    forall c :: c in cs ==> |c.mask| == 4 && |c.payload| <= 125
  }

  predicate LegalFragments(fs: seq<Fragment>) {
    forall f :: f in fs ==> |f.mask| == 4 && LegalControls(f.before)
  }

  /** The payload of the message a sequence of fragments makes up. */
  function Whole(fs: seq<Fragment>): seq<Byte> {
    if fs == [] then [] else fs[0].payload + Whole(fs[1..])
  }

  predicate LegalMessage(m: Message) {
    && (m.opcode == OP_TEXT || m.opcode == OP_BIN)
    && m.fragments != [] && LegalFragments(m.fragments) && |Whole(m.fragments)| <= MAX_PAYLOAD
  }

  predicate LegalSession(ms: seq<Message>) {
    forall i :: 0 <= i < |ms| ==> LegalMessage(ms[i])
  }

  function ControlBytes(cs: seq<Control>): seq<Byte>
    requires LegalControls(cs)
  {
    if cs == [] then []
    else ClientFrame(ControlFrame(cs[0])) + ControlBytes(cs[1..])
  }

  /** The fragments of a message, the first under its opcode if none went before. */
  function FragmentBytes(opcode: nat, first: bool, fs: seq<Fragment>): seq<Byte>
    requires opcode < 16 && LegalFragments(fs)
  {
    if fs == [] then []
    else
      ControlBytes(fs[0].before)
      + ClientFrame(Frame(|fs| == 1, if first then opcode else OP_CONT, fs[0].mask, fs[0].payload))
      + FragmentBytes(opcode, false, fs[1..])
  }

  function MessageBytes(ms: seq<Message>): seq<Byte>
    requires LegalSession(ms)
  {
    if ms == [] then [] else FragmentBytes(ms[0].opcode, true, ms[0].fragments) + MessageBytes(ms[1..])
  }

  /** One pong for each ping, with its payload. */
  function Pongs(cs: seq<Control>): seq<Byte> {
    if cs == [] then []
    else Pong(cs[0]) + Pongs(cs[1..])
  }

  function FragmentPongs(fs: seq<Fragment>): seq<Byte> {
    if fs == [] then [] else Pongs(fs[0].before) + FragmentPongs(fs[1..])
  }

  /** The pongs due within the message, and then the whole message in one frame. */
  function Echo(m: Message): seq<Byte>
    requires m.opcode < 16
  {
    FragmentPongs(m.fragments) + ServerFrame(m.opcode, Whole(m.fragments))
  }

  function Echoes(ms: seq<Message>): seq<Byte>
    requires LegalSession(ms)
  {
    if ms == [] then [] else Echo(ms[0]) + Echoes(ms[1..])
  }

  /** How the server answers one legal frame at the head of the stream. */
  lemma FrameAnswered(f: Frame, rest: seq<Byte>, state: Assembly)
    requires Legal(f) && Sound(state)
    ensures OnFrame(state, f).Continue? ==>
      Replies(ClientFrame(f) + rest, state) == OnFrame(state, f).out + Replies(rest, OnFrame(state, f).state)
    ensures OnFrame(state, f).Stop? ==> Replies(ClientFrame(f) + rest, state) == OnFrame(state, f).out
  {
    hide OnFrame;
    var s := ClientFrame(f) + rest;
    ParseInverts(f, rest);
    Unfold(s, state);
    assert s[|ClientFrame(f)|..] == rest;
  }

  function ControlFrame(c: Control): Frame {
    Frame(true, if c.ping then OP_PING else OP_PONG, c.mask, c.payload)
  }

  function Pong(c: Control): seq<Byte> { if c.ping then ServerFrame(OP_PONG, c.payload) else [] }

  lemma ControlAnswered(c: Control, more: seq<Byte>, state: Assembly)
    requires |c.mask| == 4 && |c.payload| <= 125 && Sound(state)
    ensures Replies(ClientFrame(ControlFrame(c)) + more, state) == Pong(c) + Replies(more, state)
  {
    hide ClientFrame, ServerFrame, Replies, OnData;
    FrameAnswered(ControlFrame(c), more, state);
  }

  /** Control frames are answered at once and leave the message alone. */
  lemma {:induction false} ControlsAnswered(cs: seq<Control>, rest: seq<Byte>, state: Assembly)
    requires LegalControls(cs) && Sound(state)
    ensures Replies(ControlBytes(cs) + rest, state) == Pongs(cs) + Replies(rest, state)
  {
    hide ClientFrame, Replies, Pong;
    if cs == [] {
      assert ControlBytes(cs) + rest == rest;
    } else {
      var more := ControlBytes(cs[1..]) + rest;
      assert ControlBytes(cs) + rest == ClientFrame(ControlFrame(cs[0])) + more;
      ControlAnswered(cs[0], more, state);
      ControlsAnswered(cs[1..], rest, state);
      assert Pong(cs[0]) + (Pongs(cs[1..]) + Replies(rest, state)) == Pongs(cs) + Replies(rest, state);
    }
  }

  function Begun(opcode: nat, first: bool, data: seq<Byte>): (state: Assembly)
    ensures opcode < 16 && |data| <= MAX_PAYLOAD ==> Sound(state)
  {
    if first then Idle else Open(opcode, data)
  }

  /** The last fragment completes the message; an earlier one is kept. */
  lemma FragmentAnswered(opcode: nat, first: bool, data: seq<Byte>, f: Frame, more: seq<Byte>)
    requires (opcode == OP_TEXT || opcode == OP_BIN) && (first ==> data == [])
    requires f.opcode == (if first then opcode else OP_CONT) && |f.mask| == 4
    requires |data| + |f.payload| <= MAX_PAYLOAD
    ensures Replies(ClientFrame(f) + more, Begun(opcode, first, data)) ==
      if f.fin then ServerFrame(opcode, data + f.payload) + Replies(more, Idle)
      else Replies(more, Open(opcode, data + f.payload))
  {
    hide ClientFrame, ServerFrame, Replies;
    FrameAnswered(f, more, Begun(opcode, first, data));
    assert first ==> data + f.payload == f.payload == [] + f.payload;
    if !f.fin {
      assert [] + Replies(more, Open(opcode, data + f.payload)) == Replies(more, Open(opcode, data + f.payload));
    }
  }

  /** What the first fragment of several, and the control frames before it, are answered by. */
  lemma FirstFragment(opcode: nat, first: bool, data: seq<Byte>, fs: seq<Fragment>, rest: seq<Byte>)
    requires (opcode == OP_TEXT || opcode == OP_BIN) && fs != [] && LegalFragments(fs)
    requires |data| + |fs[0].payload| <= MAX_PAYLOAD && (first ==> data == [])
    ensures Replies(FragmentBytes(opcode, first, fs) + rest, Begun(opcode, first, data)) ==
      Pongs(fs[0].before) + (
        if |fs| == 1 then ServerFrame(opcode, data + fs[0].payload) + Replies(rest, Idle)
        else Replies(FragmentBytes(opcode, false, fs[1..]) + rest, Open(opcode, data + fs[0].payload)))
  {
    hide ClientFrame, ServerFrame, Replies, ControlBytes, Pongs, FragmentBytes, FragmentPongs, Whole, Begun;
    var f := Frame(|fs| == 1, if first then opcode else OP_CONT, fs[0].mask, fs[0].payload);
    var more := FragmentBytes(opcode, false, fs[1..]) + rest;
    Unfolded(opcode, first, fs);
    assert FragmentBytes(opcode, first, fs) + rest == ControlBytes(fs[0].before) + (ClientFrame(f) + more);
    ControlsAnswered(fs[0].before, ClientFrame(f) + more, Begun(opcode, first, data));
    FragmentAnswered(opcode, first, data, f, more);
    assert |fs| == 1 ==> more == rest;
  }

  /** The fragments of one message, whatever control frames lie between them, are answered
      by the pongs due and then one frame with the data of all of them. */
  lemma {:induction false} FragmentsEchoed(
      opcode: nat, first: bool, data: seq<Byte>, fs: seq<Fragment>, rest: seq<Byte>)
    requires (opcode == OP_TEXT || opcode == OP_BIN) && fs != [] && LegalFragments(fs)
    requires |data| + |Whole(fs)| <= MAX_PAYLOAD && (first ==> data == [])
    ensures Replies(FragmentBytes(opcode, first, fs) + rest, Begun(opcode, first, data))
      == FragmentPongs(fs) + ServerFrame(opcode, data + Whole(fs)) + Replies(rest, Idle)
    decreases |fs|
  {
    hide ServerFrame, Replies, Pongs, FragmentBytes, FragmentPongs, Whole, Begun, ControlBytes, ClientFrame;
    var pongs := Pongs(fs[0].before);
    Unfolded(opcode, first, fs);
    FirstFragment(opcode, first, data, fs, rest);
    var echo, after := ServerFrame(opcode, data + Whole(fs)), Replies(rest, Idle);
    if |fs| == 1 {
      assert pongs + (echo + after) == pongs + echo + after;
    } else {
      FragmentsEchoed(opcode, false, data + fs[0].payload, fs[1..], rest);
      BegunLater(opcode, data + fs[0].payload);
      assert data + fs[0].payload + Whole(fs[1..]) == data + Whole(fs);
      assert pongs + (FragmentPongs(fs[1..]) + echo + after) == FragmentPongs(fs) + echo + after;
    }
  }

  lemma BegunLater(opcode: nat, data: seq<Byte>)
    ensures Begun(opcode, false, data) == Open(opcode, data)
  {
  }

  lemma Unfolded(opcode: nat, first: bool, fs: seq<Fragment>)
    requires opcode < 16 && fs != [] && LegalFragments(fs)
    ensures LegalControls(fs[0].before) && |fs[0].mask| == 4 && LegalFragments(fs[1..])
    ensures FragmentBytes(opcode, first, fs) ==
      ControlBytes(fs[0].before)
      + ClientFrame(Frame(|fs| == 1, if first then opcode else OP_CONT, fs[0].mask, fs[0].payload))
      + FragmentBytes(opcode, false, fs[1..])
    ensures Whole(fs) == fs[0].payload + Whole(fs[1..])
    ensures FragmentPongs(fs) == Pongs(fs[0].before) + FragmentPongs(fs[1..])
    ensures |fs| == 1 ==> FragmentBytes(opcode, false, fs[1..]) == [] && Whole(fs) == fs[0].payload
    ensures |fs| == 1 ==> FragmentPongs(fs) == Pongs(fs[0].before)
  {
    hide ClientFrame, ControlBytes, Pongs;
  }

  /** Every message of a legal session is echoed, in order, as one frame under the opcode of
      its first fragment. */
  lemma {:induction false} SessionEchoed(ms: seq<Message>, rest: seq<Byte>)
    requires LegalSession(ms)
    ensures Replies(MessageBytes(ms) + rest, Idle) == Echoes(ms) + Replies(rest, Idle)
  {
    hide Replies, FragmentBytes, FragmentPongs, ServerFrame, Whole, MessageBytes, Echoes, LegalMessage;
    SessionUnfolded(ms);
    if ms == [] {
      assert MessageBytes(ms) + rest == rest && Echoes(ms) + Replies(rest, Idle) == Replies(rest, Idle);
    } else {
      var more := MessageBytes(ms[1..]) + rest;
      assert MessageBytes(ms) + rest == FragmentBytes(ms[0].opcode, true, ms[0].fragments) + more;
      MessageEchoed(ms[0], more);
      SessionEchoed(ms[1..], rest);
      assert Echo(ms[0]) + (Echoes(ms[1..]) + Replies(rest, Idle)) == Echoes(ms) + Replies(rest, Idle);
    }
  }

  lemma SessionUnfolded(ms: seq<Message>)
    requires LegalSession(ms)
    ensures ms == [] ==> MessageBytes(ms) == [] && Echoes(ms) == []
    ensures ms != [] ==>
      && LegalMessage(ms[0]) && LegalFragments(ms[0].fragments) && ms[0].opcode < 16 && LegalSession(ms[1..])
      && MessageBytes(ms) == FragmentBytes(ms[0].opcode, true, ms[0].fragments) + MessageBytes(ms[1..])
      && Echoes(ms) == Echo(ms[0]) + Echoes(ms[1..])
  {
    hide FragmentBytes, FragmentPongs, ServerFrame, Whole;
  }

  lemma MessageEchoed(m: Message, more: seq<Byte>)
    requires LegalMessage(m)
    ensures Replies(FragmentBytes(m.opcode, true, m.fragments) + more, Idle) == Echo(m) + Replies(more, Idle)
  {
    hide Replies, FragmentBytes, FragmentPongs, ServerFrame;
    FragmentsEchoed(m.opcode, true, [], m.fragments, more);
    assert [] + Whole(m.fragments) == Whole(m.fragments);
  }

  /** From the first byte of the request to the last echo and on: with an accepted request
      whose first CRLFCRLF ends within 4095 bytes, the frame reader sees exactly the bytes
      behind it, and the server sends the response, the echoes, and what it owes for the
      bytes that follow the session. */
  lemma ConversationEchoed(
      judge: seq<Byte> -> Judgement, request: seq<Byte>, response: seq<Byte>, ms: seq<Message>, rest: seq<Byte>)
    requires 0 < |request| < MAX_REQUEST && FirstTerminator(request, |request|)
    requires judge(request[..|request| - 1]) == Accept(response)
    requires LegalSession(ms)
    ensures Served(judge, request + (MessageBytes(ms) + rest)) == response + (Echoes(ms) + Replies(rest, Idle))
  {
    hide Replies, MessageBytes, Echoes;
    var stream := request + (MessageBytes(ms) + rest);
    OneFirstTerminator(request, |request|);
    HeaderEndOfMore(request, Head(stream));
    assert stream[..|request| - 1] == request[..|request| - 1];
    assert stream[|request|..] == MessageBytes(ms) + rest;
    SessionEchoed(ms, rest);
  }

  // ----- how a conversation ends -----

  lemma CloseFrameBytes(code: nat)
    requires code < 0x1_0000
    ensures CloseFrame(code) == [0x88, 2, code / 256, code % 256]
  {
    assert ToBigEndian(code, 2) == [code / 256, code % 256];
  }

  /** A close frame is answered by one with the same payload, and nothing after it is. */
  lemma CloseAnswered(f: Frame, rest: seq<Byte>, state: Assembly)
    requires Legal(f) && f.opcode == OP_CLOSE && Sound(state)
    ensures Replies(ClientFrame(f) + rest, state) == [0x88, |f.payload|] + f.payload
  {
    FrameAnswered(f, rest, state);
  }

  /** A fragment that continues nothing, a message begun within another, and a message that
      grows beyond the limit end the conversation with a close code. */
  lemma BadDataFrameRefused(f: Frame, rest: seq<Byte>, state: Assembly)
    requires Legal(f) && f.opcode <= OP_BIN && Sound(state)
    ensures (f.opcode == OP_CONT <==> state.Idle?) ==>
      Replies(ClientFrame(f) + rest, state) == [0x88, 2, 0x03, 0xEA]
    ensures f.opcode == OP_CONT && state.Open? && |state.data| + |f.payload| > MAX_PAYLOAD ==>
      Replies(ClientFrame(f) + rest, state) == [0x88, 2, 0x03, 0xF1]
  {
    hide Replies, ClientFrame;
    FrameAnswered(f, rest, state);
    CloseFrameBytes(CLOSE_PROTOCOL);
    CloseFrameBytes(CLOSE_TOO_BIG);
  }

  /** So do bytes that begin no legal frame: with 1009 if only the size is wrong, and with
      1002 otherwise.  A frame that is cut short is not answered. */
  lemma BadBytesRefused(s: seq<Byte>, state: Assembly)
    requires |s| >= 10 && Sound(state)
    ensures (forall f :: Legal(f) ==> !(s < ClientFrame(f)) && !(ClientFrame(f) <= s)) ==>
      Replies(s, state) ==
        if exists fin, opcode, n :: TooBig(s, fin, opcode, n) then [0x88, 2, 0x03, 0xF1] else [0x88, 2, 0x03, 0xEA]
    ensures (exists f :: Legal(f) && s < ClientFrame(f)) ==> Replies(s, state) == []
  {
    hide ClientFrame, TooBig, ParseFrame;
    RefusesExactlyTheHopeless(s);
    RefusedForSize(s);
    Unfold(s, state);
    CloseFrameBytes(CLOSE_PROTOCOL);
    CloseFrameBytes(CLOSE_TOO_BIG);
  }

  /** The three digits behind "HTTP/1.1 ". */
  function Status(response: seq<Byte>): int {
    if |response| < 12 then 0
    else
      var hundreds: int, tens: int, ones: int := response[9], response[10], response[11];
      (hundreds - 48) * 100 + (tens - 48) * 10 + (ones - 48)
  }

  lemma BadRequestStatus()
    ensures Status(BAD_REQUEST) == 400
  {
    assert BAD_REQUEST[9] == 52;
  }

  lemma TooLargeStatus()
    ensures Status(TOO_LARGE) == 431
  {
    assert TOO_LARGE[9] == 52;
  }

  /** A request that is refused is answered by 400; one whose first CRLFCRLF does not come
      within 4095 bytes by 431, or by nothing if the stream ends before that; and no frame
      is looked at. */
  lemma BadRequestAnswered(judge: seq<Byte> -> Judgement, stream: seq<Byte>, end: nat)
    requires FirstTerminator(stream, end)
    ensures 0 < end < MAX_REQUEST && judge(stream[..end - 1]).Refuse? ==>
      Served(judge, stream) == BAD_REQUEST && Status(BAD_REQUEST) == 400
    ensures end == 0 || end >= MAX_REQUEST ==>
      && Served(judge, stream) == (if |stream| >= MAX_REQUEST - 1 then TOO_LARGE else [])
      && Status(TOO_LARGE) == 431
  {
    hide HeaderEnd;
    BadRequestStatus();
    TooLargeStatus();
    OneFirstTerminator(stream, end);
    var head := Head(stream);
    if 0 < end < MAX_REQUEST {
      assert Terminator(stream, end) && Terminator(head, end);
      assert HeaderEnd(head) > 0;
      HeaderEndOfMore(head, stream);
    } else if HeaderEnd(head) > 0 {
      HeaderEndOfMore(head, stream);
    }
  }
}
