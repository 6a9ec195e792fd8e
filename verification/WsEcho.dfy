/** The echo server's side of one connection: what it answers is a function of the bytes
    the client sent, however the stream is cut into reads. */
module WsEcho {
  import opened WsCodec

  // ----- what the server owes the client -----

  /** The message being put together from fragments, if any. */
  datatype Assembly = Idle | Open(opcode: nat, data: seq<Byte>)

  /** What one frame leads to: bytes to send, and whether the connection goes on. */
  datatype Effect = Continue(out: seq<Byte>, state: Assembly) | Stop(out: seq<Byte>)

  function OnData(state: Assembly, f: Frame): Effect
    requires f.opcode < 16 && (state.Open? ==> state.opcode < 16 && |state.data| <= MAX_PAYLOAD)
  {
    if (f.opcode == OP_CONT) != state.Open? then Stop(CloseFrame(CLOSE_PROTOCOL))
    else if state.Idle? && f.fin then Continue(ServerFrame(f.opcode, f.payload), Idle)
    else
      var opcode, data := if state.Idle? then f.opcode else state.opcode, if state.Idle? then [] else state.data;
      if |data| + |f.payload| > MAX_PAYLOAD then Stop(CloseFrame(CLOSE_TOO_BIG))
      else if f.fin then Continue(ServerFrame(opcode, data + f.payload), Idle)
      else Continue([], Open(opcode, data + f.payload))
  }

  predicate Sound(state: Assembly) {
    state.Open? ==> state.opcode < 16 && |state.data| <= MAX_PAYLOAD
  }

  function OnFrame(state: Assembly, f: Frame): (e: Effect)
    requires f.opcode < 16 && Sound(state)
    ensures e.Continue? ==> Sound(e.state)
  {
    if f.opcode == OP_CLOSE then Stop(ServerFrame(OP_CLOSE, f.payload))
    else if f.opcode == OP_PING then Continue(ServerFrame(OP_PONG, f.payload), state)
    else if f.opcode == OP_PONG then Continue([], state)
    else OnData(state, f)
  }

  /** All the bytes sent in answer to the frames of a stream. */
  function Replies(s: seq<Byte>, state: Assembly): seq<Byte>
    requires Sound(state)
    decreases |s|
  {
    match ParseFrame(s)
    case Incomplete => []
    case Violation(code) => CloseFrame(code)
    case Parsed(f, size) =>
      match OnFrame(state, f)
      case Stop(out) => out
      case Continue(out, next) => out + Replies(s[size..], next)
  }

  /** A request is accepted with a response, or not; reading its lines is not part of this
      model. */
  datatype Judgement = Refuse | Accept(response: seq<Byte>)

  predicate Terminator(s: seq<Byte>, end: int) {
    4 <= end <= |s| && s[end - 4] == 13 && s[end - 3] == 10 && s[end - 2] == 13 && s[end - 1] == 10
  }

  /** `end` lies just behind the first CRLFCRLF of `s`, or is 0 and there is none. */
  ghost predicate FirstTerminator(s: seq<Byte>, end: nat) {
    && (end > 0 ==> Terminator(s, end))
    && forall e :: Terminator(s, e) ==> 0 < end <= e
  }

  function HeaderEnd(s: seq<Byte>): (end: nat)
    ensures FirstTerminator(s, end)
  {
    if |s| == 0 then 0
    else
      var earlier := HeaderEnd(s[..|s| - 1]);
      if earlier > 0 then
        assert forall e :: Terminator(s, e) && e < |s| ==> Terminator(s[..|s| - 1], e);
        earlier
      else
        assert forall e :: Terminator(s, e) && e < |s| ==> Terminator(s[..|s| - 1], e);
        if Terminator(s, |s|) then |s| else 0
  }

  function Ascii(s: string): seq<Byte> {
    seq(|s|, i requires 0 <= i < |s| => s[i] as int % 256)
  }

  const LAST_LINES: seq<Byte> := Ascii("Connection: close\r\n\r\n")
  const BAD_REQUEST: seq<Byte> := Ascii("HTTP/1.1 400 Bad Request\r\n") + LAST_LINES
  const TOO_LARGE: seq<Byte> := Ascii("HTTP/1.1 431 Request Header Fields Too Large\r\n") + LAST_LINES

  /** The part of the stream that a request may take up. */
  function Head(stream: seq<Byte>): seq<Byte> {
    if |stream| < MAX_REQUEST then stream else stream[..MAX_REQUEST - 1]
  }

  /** What is sent when no request ends in time. */
  function Unfinished(stream: seq<Byte>): seq<Byte> {
    if |stream| >= MAX_REQUEST - 1 then TOO_LARGE else []
  }

  /** What the handshake sends, and the offset of the first frame if it succeeds. */
  datatype Handshake = Over(out: seq<Byte>) | Upgraded(out: seq<Byte>, end: nat)

  function Shake(judge: seq<Byte> -> Judgement, stream: seq<Byte>): (h: Handshake)
    ensures h.Upgraded? ==> h.end <= |stream|
  {
    var end := HeaderEnd(Head(stream));
    if end == 0 then Over(Unfinished(stream))
    else
      match judge(stream[..end - 1])
      case Refuse => Over(BAD_REQUEST)
      case Accept(response) => Upgraded(response, end)
  }

  /** Everything the server sends to a client that sends `stream`. */
  function Served(judge: seq<Byte> -> Judgement, stream: seq<Byte>): seq<Byte> {
    match Shake(judge, stream)
    case Over(out) => out
    case Upgraded(out, end) => out + Replies(stream[end..], Idle)
  }

  // ----- the socket -----

  /** A piece written over the middle of a buffer, told by its indices. */
  lemma Overwritten(was: seq<Byte>, now: seq<Byte>, off: nat, piece: seq<Byte>)
    requires |now| == |was| && off + |piece| <= |was|
    requires forall i :: 0 <= i < |piece| ==> now[off + i] == piece[i]
    requires forall i :: 0 <= i < off || off + |piece| <= i < |was| ==> now[i] == was[i]
    ensures now[..off + |piece|] == was[..off] + piece && now[off + |piece|..] == was[off + |piece|..]
  {
    forall i | 0 <= i < off + |piece| ensures now[i] == (was[..off] + piece)[i] {
      if i >= off { assert now[off + (i - off)] == piece[i - off]; }
    }
  }

  function Take(n: nat, s: seq<Byte>): seq<Byte> { if |s| <= n then s else s[..n] }

  /** One end of a connection.  The peer's bytes come in pieces the kernel chooses, and then
      the peer closes, or the connection breaks, which is also what a read deadline that
      passes comes to; it takes `room` bytes before writes fail. */
  class Socket {
    var input: seq<Byte>
    var pieces: seq<nat>
    const broken: bool
    const room: nat
    var output: seq<Byte>

    constructor (input: seq<Byte>, pieces: seq<nat>, broken: bool, room: nat)
      ensures this.input == input && this.pieces == pieces && this.broken == broken && this.room == room && output == []
    {
      this.input, this.pieces, this.broken, this.room, output := input, pieces, broken, room, [];
    }

    method Read(buf: array<Byte>, off: nat, n: nat) returns (r: int)
      requires n > 0 && off + n <= buf.Length
      modifies this`input, this`pieces, buf
      ensures r <= n
      ensures old(input) == [] ==> r == (if broken then -1 else 0) && input == [] && buf[..] == old(buf[..])
      ensures old(input) != [] ==>
        && 0 < r <= |old(input)| && input == old(input)[r..]
        && buf[..off + r] == old(buf[..off]) + old(input)[..r] && buf[off + r..] == old(buf[off + r..])
    {
      if input == [] {
        return if broken then -1 else 0;
      }
      var most := if n < |input| then n else |input|;
      r := most;
      if pieces != [] {
        if 0 < pieces[0] < most {
          r := pieces[0];
        }
        pieces := pieces[1..];
      }
      ghost var was := buf[..];
      forall i | 0 <= i < r {
        buf[off + i] := input[i];
      }
      assert forall i :: 0 <= i < r ==> buf[..][off + i] == input[i];
      assert forall i :: 0 <= i < off || off + r <= i < buf.Length ==> buf[..][i] == was[i];
      Overwritten(was, buf[..], off, input[..r]);
      input := input[r..];
    }

    /** All of the bytes, or an error once the peer takes no more. */
    method Write(buf: array<Byte>, n: nat) returns (ok: bool)
      requires n <= buf.Length && |output| <= room
      modifies this`output
      ensures output == Take(room, old(output) + buf[..n])
      ensures ok <==> |old(output)| + n <= room
    {
      ok := |output| + n <= room;
      output := Take(room, output + buf[..n]);
    }
  }

  // ----- the connection -----

  datatype Header = Header(fin: bool, opcode: nat, len: nat)

  class Conn {
    const socket: Socket
    const carry: array<Byte>
    var carryOff: nat
    var carryLen: nat
    const msg: array<Byte>
    var msgLen: nat
    var msgOp: int

    predicate Valid()
      reads this
    {
      && carry.Length == MAX_REQUEST && msg.Length == MAX_PAYLOAD && carry != msg
      && carryOff <= carryLen <= MAX_REQUEST && msgLen <= MAX_PAYLOAD && -1 <= msgOp < 16
    }

    /** What the frame reader has still to see: the carried bytes, then the socket's. */
    ghost function Stream(): seq<Byte>
      requires Valid()
      reads this, carry, socket`input
    {
      carry[carryOff..carryLen] + socket.input
    }

    ghost function State(): (s: Assembly)
      requires Valid()
      reads this, msg
      ensures Sound(s)
    {
      if msgOp < 0 then Idle else Open(msgOp, msg[..msgLen])
    }

    constructor (socket: Socket)
      ensures Valid() && State() == Idle && this.socket == socket && Stream() == socket.input
      ensures fresh(carry) && fresh(msg)
    {
      this.socket := socket;
      carry := new Byte[MAX_REQUEST](_ => 0);
      msg := new Byte[MAX_PAYLOAD](_ => 0);
      carryOff, carryLen, msgLen, msgOp := 0, 0, 0, -1;
    }

    /** As many of the next `n` bytes as were carried. */
    method TakeCarried(buf: array<Byte>, n: nat) returns (off: nat)
      requires Valid() && n <= buf.Length && buf != carry && buf != msg
      modifies this`carryOff, buf
      ensures Valid() && off <= n && off <= |old(Stream())|
      ensures buf[..off] == old(Stream())[..off] && Stream() == old(Stream())[off..]
      ensures buf[off..] == old(buf[off..])
      ensures off < n ==> carryOff == carryLen
    {
      off := if carryLen - carryOff > n then n else carryLen - carryOff;
      ghost var start, bytes := carryOff, carry[..];
      ghost var carried := bytes[start..carryLen];
      assert Stream() == carried + socket.input;
      Split(carried, socket.input, off);
      SliceTail(bytes, start, off, carryLen);
      if carryOff < carryLen {
        CopyCarried(buf, off);
        carryOff := carryOff + off;
      }
      assert carry[..] == bytes;
      assert Stream() == bytes[start + off..carryLen] + socket.input;
      assert off == 0 ==> buf[..off] == [] == carried[..off];
      assert buf[..off] == carried[..off];
    }

    method CopyCarried(buf: array<Byte>, take: nat)
      requires Valid() && carryOff + take <= carryLen && take <= buf.Length && buf != carry
      modifies buf
      ensures buf[..take] == carry[..][carryOff..carryLen][..take] && buf[take..] == old(buf[take..])
      ensures carry[..] == old(carry[..])
    {
      ghost var was, bytes := buf[..], carry[..];
      forall i | 0 <= i < take {
        buf[i] := carry[carryOff + i];
      }
      assert forall i :: 0 <= i < take ==> buf[..][0 + i] == bytes[carryOff..carryLen][..take][i];
      assert forall i :: take <= i < buf.Length ==> buf[..][i] == was[i];
      Overwritten(was, buf[..], 0, bytes[carryOff..carryLen][..take]);
      assert forall i :: 0 <= i < carry.Length ==> carry[..][i] == bytes[i];
    }

    lemma SliceTail(s: seq<Byte>, start: nat, off: nat, end: nat)
      requires start + off <= end <= |s|
      ensures s[start..end][off..] == s[start + off..end]
    {
    }

    /** Taking from the front of the carried bytes is taking from the front of the stream. */
    lemma Split(carried: seq<Byte>, input: seq<Byte>, off: nat)
      requires off <= |carried|
      ensures (carried + input)[..off] == carried[..off] && (carried + input)[off..] == carried[off..] + input
    {
    }

    lemma NothingCarried()
      requires Valid() && carryOff == carryLen
      ensures Stream() == socket.input
    {
    }

    /** The next `n` bytes of the stream, carried ones first; 1, or 0 at the peer's close,
        or -1 at an error. */
    method ReadExact(buf: array<Byte>, n: nat) returns (rc: int)
      requires Valid() && n <= buf.Length && buf != carry && buf != msg
      modifies this`carryOff, socket`input, socket`pieces, buf
      ensures Valid()
      ensures rc == 1 <==> n <= |old(Stream())|
      ensures rc == 1 ==> buf[..n] == old(Stream())[..n] && Stream() == old(Stream())[n..]
      ensures rc != 1 ==> rc == if socket.broken then -1 else 0
    {
      ghost var all := Stream();
      var off := TakeCarried(buf, n);
      if off == n {
        return 1;
      }
      NothingCarried();
      rc := ReadOn(buf, off, n, all);
      NothingCarried();
    }

    /** The rest from the socket, in as many reads as it takes. */
    method ReadOn(buf: array<Byte>, start: nat, n: nat, ghost all: seq<Byte>) returns (rc: int)
      requires start <= n <= buf.Length && start <= |all| && buf[..start] == all[..start]
      requires socket.input == all[start..]
      modifies socket`input, socket`pieces, buf
      ensures rc == 1 <==> n <= |all|
      ensures rc == 1 ==> buf[..n] == all[..n] && socket.input == all[n..]
      ensures rc != 1 ==> rc == if socket.broken then -1 else 0
    {
      var off := start;
      while off < n
        invariant start <= off <= n && off <= |all| && buf[..off] == all[..off] && socket.input == all[off..]
      {
        var r := socket.Read(buf, off, n - off);
        if r == 0 {
          return 0;
        }
        if r < 0 {
          return -1;
        }
        assert all[..off + r] == all[..off] + all[off..][..r];
        assert all[off..][r..] == all[off + r..];
        off := off + r;
      }
      rc := 1;
    }

    // ----- receiving -----

    method Number(e: array<Byte>) returns (n: nat)
      ensures n == BigEndian(e[..])
    {
      n := 0;
      for i := 0 to e.Length
        invariant n == BigEndian(e[..i])
      {
        n := n * 256 + e[i];
        assert e[..i + 1][..i] == e[..i];
      }
      assert e[..e.Length] == e[..];
    }

    /** The bytes of an extended length, if the length byte announces them. */
    method ReadLength(n7: nat) returns (ok: bool, n: nat)
      requires Valid()
      modifies this`carryOff, socket`input, socket`pieces
      ensures Valid()
      ensures ok <==> Extended(n7) <= |old(Stream())|
      ensures ok ==>
        && Stream() == old(Stream())[Extended(n7)..]
        && n == if Extended(n7) == 0 then n7 else BigEndian(old(Stream())[..Extended(n7)])
    {
      if n7 == 126 || n7 == 127 {
        var e := new Byte[if n7 == 126 then 2 else 8](_ => 0);
        var rc := ReadExact(e, e.Length);
        if rc <= 0 {
          return false, 0;
        }
        n := Number(e);
        assert e[..e.Length] == e[..];
        return true, n;
      }
      ok, n := true, n7;
      assert Stream()[0..] == Stream();
    }

    method Unmask(payload: array<Byte>, n: nat, mask: array<Byte>)
      requires n <= payload.Length && mask.Length == 4 && mask != payload
      modifies payload
      ensures payload[..n] == Masked(old(payload[..n]), mask[..])
    {
      ghost var was := payload[..n];
      for i := 0 to n
        invariant forall j :: 0 <= j < i ==> payload[j] == Xor(was[j], mask[j % 4])
        invariant forall j :: i <= j < n ==> payload[j] == was[j]
        invariant mask[..] == old(mask[..])
      {
        payload[i] := Xor(payload[i], mask[i % 4]);
      }
    }

    /** The mask and the payload, unmasked in place. */
    method ReadPayload(payload: array<Byte>, n: nat) returns (ok: bool)
      requires Valid() && n <= payload.Length && payload != carry && payload != msg
      modifies this`carryOff, socket`input, socket`pieces, payload
      ensures Valid()
      ensures ok <==> 4 + n <= |old(Stream())|
      ensures ok ==>
        && Stream() == old(Stream())[4 + n..]
        && payload[..n] == Masked(old(Stream())[4..4 + n], old(Stream())[..4])
    {
      ghost var all := Stream();
      var mask := new Byte[4](_ => 0);
      var rc := ReadExact(mask, 4);
      if rc <= 0 {
        return false;
      }
      assert mask[..4] == mask[..];
      if n > 0 {
        rc := ReadExact(payload, n);
        if rc <= 0 {
          return false;
        }
        assert all[4..][n..] == all[4 + n..];
      }
      assert payload[..n] == all[4..4 + n];
      Unmask(payload, n, mask);
      ok := true;
    }

    method CheckLength(fin: bool, opcode: nat, n7: nat, n: nat) returns (code: nat)
      ensures code == Refusal(fin, opcode, n7, n) && (code == 0 ==> n <= MAX_PAYLOAD)
    {
      if n7 == 126 && n < 126 {
        return CLOSE_PROTOCOL;
      }
      if n7 == 127 && (n <= 0xFFFF || n >= TWO_TO_63) {
        return CLOSE_PROTOCOL;
      }
      if opcode >= OP_CLOSE && (!fin || n > 125) {
        return CLOSE_PROTOCOL;
      }
      if n > MAX_PAYLOAD {
        return CLOSE_TOO_BIG;
      }
      code := 0;
    }

    /** What the parse of a frame, begun on the stream as it was, means for the reader. */
    ghost predicate Reads(p: Parse, all: seq<Byte>, rc: int, h: Header, payload: array<Byte>)
      requires Valid()
      reads this, carry, socket`input, payload
    {
      match p
      case Incomplete => rc <= 0
      case Violation(code) => rc == code
      case Parsed(f, size) =>
        && rc == 1 && h == Header(f.fin, f.opcode, |f.payload|)
        && size <= |all| && Stream() == all[size..]
        && |f.payload| <= payload.Length && payload[..|f.payload|] == f.payload
    }

    method RecvRest(fin: bool, opcode: nat, n7: nat, payload: array<Byte>, ghost all: seq<Byte>)
      returns (rc: int, h: Header)
      requires Valid() && payload.Length == MAX_PAYLOAD && payload != carry && payload != msg
      requires |all| >= 2 && Stream() == all[2..]
      modifies this`carryOff, socket`input, socket`pieces, payload
      ensures Valid() && Reads(ParseLength(fin, opcode, n7, all[2..]), all, rc, h, payload)
    {
      hide BigEndian, Masked, Refusal;
      h := Header(false, 0, 0);
      var ok, n := ReadLength(n7);
      if !ok {
        return -1, h;
      }
      rc := CheckLength(fin, opcode, n7, n);
      if rc > 0 {
        return;
      }
      ghost var x := Extended(n7);
      ok := ReadPayload(payload, n);
      if !ok {
        return -1, h;
      }
      assert all[2..][x..][4 + n..] == all[2 + x + 4 + n..];
      return 1, Header(fin, opcode, n);
    }

    /** One client frame into `payload`: 1, or 0 if the peer closed, or -1 on an error, or
        the close code to send. */
    method RecvFrame(payload: array<Byte>) returns (rc: int, h: Header)
      requires Valid() && payload.Length == MAX_PAYLOAD && payload != carry && payload != msg
      modifies this`carryOff, socket`input, socket`pieces, payload
      ensures Valid() && Reads(ParseFrame(old(Stream())), old(Stream()), rc, h, payload)
    {
      ghost var all := Stream();
      h := Header(false, 0, 0);
      var b := new Byte[2](_ => 0);
      rc := ReadExact(b, 2);
      if rc <= 0 {
        return;
      }
      assert b[0] == b[..2][0] == all[0] && b[1] == b[..2][1] == all[1];
      var fin, opcode, rsv := b[0] / 128 == 1, b[0] % 16, b[0] / 16 % 8;
      var masked, n7 := b[1] / 128 == 1, b[1] % 128;
      if rsv != 0 || !Known(opcode) || !masked {
        return CLOSE_PROTOCOL, h;
      }
      rc, h := RecvRest(fin, opcode, n7, payload, all);
    }

    // ----- sending -----

    method LengthBytes(hdr: array<Byte>, len: nat) returns (h: nat)
      requires hdr.Length == 10 && len < Power256(8)
      modifies hdr
      ensures h <= 10 && hdr[0] == old(hdr[0]) && hdr[..h] == [hdr[0]] + LengthField(len)
    {
      h := 1;
      if len < 126 {
        hdr[h] := len;
        h := h + 1;
      } else if len <= 0xFFFF {
        hdr[h] := 126;
        hdr[h + 1] := len / 256 % 256;
        hdr[h + 2] := len % 256;
        h := h + 3;
        assert ToBigEndian(len, 2) == [len / 256 % 256, len % 256];
      } else {
        hdr[h] := 127;
        StoreNumber(hdr, len);
        h := h + 9;
      }
    }

    /** Eight bytes, the most significant first. */
    method StoreNumber(hdr: array<Byte>, len: nat)
      requires hdr.Length == 10
      modifies hdr
      ensures hdr[..2] == old(hdr[..2]) && hdr[2..] == ToBigEndian(len, 8)
    {
      var left := len;
      for k := 0 to 8
        invariant hdr[..2] == old(hdr[..2])
        invariant ToBigEndian(left, 8 - k) + hdr[10 - k..] == ToBigEndian(len, 8)
      {
        ghost var front, tail := hdr[..2], hdr[10 - k..];
        hdr[9 - k] := left % 256;
        assert hdr[..2] == front && hdr[9 - k..] == [left % 256] + tail;
        OneDigit(left, 8 - k, tail);
        left := left / 256;
      }
    }

    lemma OneDigit(n: nat, k: nat, tail: seq<Byte>)
      requires k > 0
      ensures ToBigEndian(n, k) + tail == ToBigEndian(n / 256, k - 1) + ([n % 256] + tail)
    {
      var high := ToBigEndian(n / 256, k - 1);
      assert high + [n % 256] + tail == high + ([n % 256] + tail);
    }

    /** One server frame, unmasked. */
    method SendFrame(opcode: nat, payload: array<Byte>, len: nat) returns (ok: bool)
      requires opcode < 16 && len <= payload.Length && len < Power256(8) && |socket.output| <= socket.room
      modifies socket`output
      ensures socket.output == Take(socket.room, old(socket.output) + ServerFrame(opcode, payload[..len]))
      ensures ok <==> |old(socket.output)| + |ServerFrame(opcode, payload[..len])| <= socket.room
    {
      var hdr := new Byte[10](_ => 0);
      hdr[0] := 128 + opcode;
      var h := LengthBytes(hdr, len);
      ok := socket.Write(hdr, h);
      if !ok {
        return;
      }
      assert old(socket.output) + hdr[..h] + payload[..len] == old(socket.output) + ServerFrame(opcode, payload[..len]);
      if len > 0 {
        ok := socket.Write(payload, len);
      }
    }

    method SendClose(code: nat)
      requires |socket.output| <= socket.room && code < 0x1_0000
      modifies socket`output
      ensures socket.output == Take(socket.room, old(socket.output) + CloseFrame(code))
    {
      var body := new Byte[2](_ => 0);
      body[0], body[1] := code / 256 % 256, code % 256;
      assert ToBigEndian(code, 2) == [code / 256 % 256, code % 256];
      assert body[..2] == ToBigEndian(code, 2);
      PowersOf256();
      var ok := SendFrame(OP_CLOSE, body, 2);
    }

    // ----- one data frame -----

    /** Fragments are kept until the last one and then sent as one message.  0, or -1 if
        sending fails, or the close code for a violation. */
    method OnDataFrame(h: Header, payload: array<Byte>, ghost f: Frame) returns (rc: int)
      requires Valid() && payload.Length == MAX_PAYLOAD && payload != msg && h.opcode < 16
      requires h.len <= MAX_PAYLOAD && f.fin == h.fin && f.opcode == h.opcode && f.payload == payload[..h.len]
      requires |socket.output| <= socket.room
      modifies this`msgOp, this`msgLen, msg, socket`output
      ensures Valid() && |socket.output| <= socket.room
      ensures match OnData(old(State()), f)
        case Stop(out) => rc > 1 && out == CloseFrame(rc) && rc < 0x1_0000 && socket.output == old(socket.output)
        case Continue(out, next) =>
          && socket.output == Take(socket.room, old(socket.output) + out)
          && (if |old(socket.output)| + |out| <= socket.room then rc == 0 && State() == next else rc == -1)
    {
      hide ServerFrame, CloseFrame, Power256;
      PowersOf256();
      assert socket.output + [] == socket.output;
      if h.opcode == OP_CONT {
        if msgOp < 0 {
          return CLOSE_PROTOCOL;
        }
      } else {
        if msgOp >= 0 {
          return CLOSE_PROTOCOL;
        }
        if h.fin {
          var ok := SendFrame(h.opcode, payload, h.len);
          return if ok then 0 else -1;
        }
        msgOp := h.opcode;
        msgLen := 0;
      }
      if h.len > MAX_PAYLOAD - msgLen {
        return CLOSE_TOO_BIG;
      }
      Append(payload, h.len);
      if !h.fin {
        return 0;
      }
      var op := msgOp;
      msgOp := -1;
      var ok := SendFrame(op, msg, msgLen);
      return if ok then 0 else -1;
    }

    method Append(payload: array<Byte>, n: nat)
      requires Valid() && payload != msg && n <= payload.Length && msgLen + n <= MAX_PAYLOAD
      modifies this`msgLen, msg
      ensures Valid() && msgLen == old(msgLen) + n && msg[..msgLen] == old(msg[..msgLen]) + payload[..n]
    {
      ghost var start := msg[..msgLen];
      forall i | 0 <= i < n {
        msg[msgLen + i] := payload[i];
      }
      assert msg[..msgLen + n] == start + payload[..n];
      msgLen := msgLen + n;
    }

    // ----- the handshake -----

    /** Sends bytes made up on the spot. */
    method SendBytes(bytes: seq<Byte>) returns (ok: bool)
      requires |socket.output| <= socket.room
      modifies socket`output
      ensures socket.output == Take(socket.room, old(socket.output) + bytes)
      ensures ok <==> |old(socket.output)| + |bytes| <= socket.room
    {
      var buf := new Byte[|bytes|](i requires 0 <= i < |bytes| => bytes[i]);
      assert buf[..|bytes|] == bytes;
      ok := socket.Write(buf, |bytes|);
    }

    /** The offset just behind the first CRLFCRLF of the first `n` bytes, or 0. */
    method FindHeaderEnd(buf: array<Byte>, n: nat) returns (end: nat)
      requires n <= buf.Length
      ensures FirstTerminator(buf[..n], end)
    {
      var i := 3;
      while i < n
        invariant forall e :: Terminator(buf[..n], e) ==> e > i
      {
        if buf[i - 3] == 13 && buf[i - 2] == 10 && buf[i - 1] == 13 && buf[i] == 10 {
          return i + 1;
        }
        i := i + 1;
      }
      end := 0;
    }

    /** One more read behind the `total` bytes there are, and a look for the terminator. */
    method ReadMore(total: nat, ghost all: seq<Byte>) returns (r: int, end: nat)
      requires Valid() && total < MAX_REQUEST - 1
      requires total <= |all| && carry[..total] == all[..total] && socket.input == all[total..]
      modifies carry, socket`input, socket`pieces
      ensures r <= 0 <==> total == |all|
      ensures r > 0 ==>
        && total + r <= |all| && total + r <= MAX_REQUEST - 1
        && carry[..total + r] == all[..total + r] && socket.input == all[total + r..]
        && end == HeaderEnd(all[..total + r])
    {
      end := 0;
      r := socket.Read(carry, total, MAX_REQUEST - 1 - total);
      if r <= 0 {
        return;
      }
      assert all[..total + r] == all[..total] + all[total..][..r];
      assert all[total..][r..] == all[total + r..];
      end := FindHeaderEnd(carry, total + r);
      OneFirstTerminator(carry[..total + r], end);
    }

    /** Reads into the carry buffer until a header is complete, the buffer is full (431) or
        the stream ends.  What follows the header stays carried. */
    method ReadRequest() returns (end: nat)
      requires Valid() && carryOff == carryLen && |socket.output| <= socket.room
      modifies this`carryOff, this`carryLen, carry, socket`input, socket`pieces, socket`output
      ensures Valid() && end == HeaderEnd(Head(old(socket.input)))
      ensures end == 0 ==>
        socket.output == Take(socket.room, old(socket.output) + Unfinished(old(socket.input)))
      ensures end > 0 ==>
        && socket.output == old(socket.output) && end <= |old(socket.input)|
        && carryOff == end && carry[..end] == old(socket.input)[..end] && Stream() == old(socket.input)[end..]
    {
      ghost var all := socket.input;
      var total := 0;
      end := 0;
      assert socket.output + [] == socket.output;
      while end == 0
        invariant total <= |all| && total <= MAX_REQUEST - 1 && carry[..total] == all[..total]
        invariant socket.input == all[total..]
        invariant end == HeaderEnd(all[..total]) && end <= total
        invariant Valid() && socket.output == old(socket.output)
        decreases MAX_REQUEST - total, if end == 0 then 1 else 0
      {
        if total >= MAX_REQUEST - 1 {
          assert Head(all) == all[..total];
          var ok := SendBytes(TOO_LARGE);
          return;
        }
        var r, e := ReadMore(total, all);
        if r <= 0 {
          assert Head(all) == all[..total];
          return;
        }
        total := total + r;
        end := e;
      }
      carryOff := end;
      carryLen := total;
      HeaderEndOfMore(all[..total], Head(all));
      Kept(all, end);
    }

    /** The last byte of the header is a NUL while the header's lines are read, and put back
        after that. */
    method Judge(judge: seq<Byte> -> Judgement, end: nat) returns (judgement: Judgement)
      requires Valid() && 0 < end == carryOff
      modifies carry
      ensures judgement == judge(old(carry[..end])[..end - 1]) && carry[..] == old(carry[..])
    {
      ghost var was := carry[..];
      var saved := carry[end - 1];
      carry[end - 1] := 0;
      assert carry[..end - 1] == was[..end - 1] == was[..end][..end - 1];
      judgement := judge(carry[..end - 1]);
      carry[end - 1] := saved;
      assert forall i :: 0 <= i < carry.Length ==> carry[..][i] == was[i];
    }

    /** Reads the request and answers it. */
    method DoHandshake(judge: seq<Byte> -> Judgement) returns (rc: int)
      requires Valid() && carryOff == carryLen && |socket.output| <= socket.room
      modifies this`carryOff, this`carryLen, carry, socket`input, socket`pieces, socket`output
      ensures Valid() && (rc == 0 || rc == -1)
      ensures socket.output == Take(socket.room, old(socket.output) + Shake(judge, old(socket.input)).out)
      ensures rc == 0 <==>
        && Shake(judge, old(socket.input)).Upgraded?
        && |old(socket.output)| + |Shake(judge, old(socket.input)).out| <= socket.room
      ensures rc == 0 ==> Stream() == old(socket.input)[Shake(judge, old(socket.input)).end..]
    {
      var end := ReadRequest();
      if end == 0 {
        return -1;
      }
      ghost var stream := Stream();
      var judgement := Judge(judge, end);
      assert old(socket.input)[..end][..end - 1] == old(socket.input)[..end - 1];
      assert Stream() == stream;
      match judgement
      case Refuse =>
        var ok := SendBytes(BAD_REQUEST);
        rc := -1;
      case Accept(response) =>
        var ok := SendBytes(response);
        rc := if ok then 0 else -1;
    }

    lemma Kept(all: seq<Byte>, end: nat)
      requires Valid() && carryOff == end && carryLen <= |all|
      requires carry[..carryLen] == all[..carryLen] && socket.input == all[carryLen..]
      ensures Stream() == all[end..] && carry[..end] == all[..end]
    {
      assert carry[end..carryLen] == carry[..carryLen][end..] == all[..carryLen][end..];
      assert carry[..end] == carry[..carryLen][..end];
    }

    // ----- the whole connection -----

    /** Answers one frame: 0 to go on, or -1 to leave. */
    method Answer(h: Header, payload: array<Byte>, ghost f: Frame) returns (rc: int)
      requires Valid() && payload.Length == MAX_PAYLOAD && payload != msg && h.opcode < 16
      requires h.len <= MAX_PAYLOAD && f.fin == h.fin && f.opcode == h.opcode && f.payload == payload[..h.len]
      requires |socket.output| <= socket.room
      modifies this`msgOp, this`msgLen, msg, socket`output
      ensures Valid() && |socket.output| <= socket.room && (rc == 0 || rc == -1)
      ensures socket.output == Take(socket.room, old(socket.output) + OnFrame(old(State()), f).out)
      ensures rc == 0 <==>
        && OnFrame(old(State()), f).Continue?
        && |old(socket.output)| + |OnFrame(old(State()), f).out| <= socket.room
      ensures rc == 0 ==> State() == OnFrame(old(State()), f).state
    {
      hide ServerFrame, CloseFrame, Power256, OnData;
      PowersOf256();
      assert socket.output + [] == socket.output;
      if h.opcode == OP_CLOSE {
        var ok := SendFrame(OP_CLOSE, payload, h.len);
        return -1;
      }
      if h.opcode == OP_PING {
        var ok := SendFrame(OP_PONG, payload, h.len);
        return if ok then 0 else -1;
      }
      if h.opcode == OP_PONG {
        return 0;
      }
      rc := OnDataFrame(h, payload, f);
      if rc > 0 {
        SendClose(rc);
        rc := -1;
      }
    }

    /** One frame, or the end of the stream: either everything owed for it is sent and the
        connection goes on, or all that is still owed is, as far as the peer takes it. */
    method OneFrame(payload: array<Byte>) returns (on: bool)
      requires Valid() && payload.Length == MAX_PAYLOAD && payload != carry && payload != msg
      requires |socket.output| <= socket.room
      modifies this, msg, socket`input, socket`pieces, socket`output, payload
      ensures Valid() && |socket.output| <= socket.room
      ensures on ==>
        && |Stream()| < |old(Stream())|
        && socket.output + Replies(Stream(), State()) == old(socket.output) + Replies(old(Stream()), old(State()))
      ensures !on ==>
        socket.output == Take(socket.room, old(socket.output) + Replies(old(Stream()), old(State())))
    {
      hide Replies, ParseFrame, OnFrame;
      ghost var sent, stream, state := socket.output, Stream(), State();
      Unfold(stream, state);
      assert sent + [] == sent;
      var rc, h := RecvFrame(payload);
      if rc <= 0 {
        return false;
      }
      if rc > 1 {
        SendClose(rc);
        return false;
      }
      ghost var f, rest := ParseFrame(stream).frame, Stream();
      assert State() == state && rest == stream[ParseFrame(stream).size..];
      rc := Answer(h, payload, f);
      ghost var out := OnFrame(state, f).out;
      if rc < 0 {
        if OnFrame(state, f).Continue? {
          CutShort(socket.room, sent, out, Replies(rest, OnFrame(state, f).state));
        }
        return false;
      }
      assert Stream() == rest && socket.output == sent + out;
      assert sent + out + Replies(rest, State()) == sent + (out + Replies(rest, State()));
      on := true;
    }

    /** What does not fit is not sent, and nothing after it. */
    lemma CutShort(room: nat, sent: seq<Byte>, out: seq<Byte>, more: seq<Byte>)
      requires |sent| + |out| > room
      ensures Take(room, sent + out) == Take(room, sent + (out + more))
    {
    }

    /** One connection, from its first byte on: what is sent depends on the bytes received
        and on nothing else, up to the point where the peer takes no more. */
    method Serve(judge: seq<Byte> -> Judgement)
      requires Valid() && carryOff == carryLen && State() == Idle && socket.output == []
      modifies this, carry, msg, socket`input, socket`pieces, socket`output
      ensures socket.output == Take(socket.room, Served(judge, old(socket.input)))
    {
      hide Shake, Replies;
      ghost var all := Served(judge, socket.input);
      ghost var shake := Shake(judge, socket.input);
      assert [] + shake.out == shake.out;
      var payload := new Byte[MAX_PAYLOAD](_ => 0);
      var rc := DoHandshake(judge);
      if rc < 0 {
        if shake.Upgraded? {
          CutShort(socket.room, [], shake.out, Replies(old(socket.input)[shake.end..], Idle));
          assert [] + all == all;
        }
        return;
      }
      var on := true;
      while on
        invariant Valid() && |socket.output| <= socket.room
        invariant on ==> socket.output + Replies(Stream(), State()) == all
        invariant !on ==> socket.output == Take(socket.room, all)
        decreases on, |Stream()|
      {
        on := OneFrame(payload);
      }
    }
  }

  lemma Unfold(s: seq<Byte>, state: Assembly)
    requires Sound(state)
    ensures ParseFrame(s).Incomplete? ==> Replies(s, state) == []
    ensures ParseFrame(s).Violation? ==>
      Replies(s, state) == CloseFrame(ParseFrame(s).code) && 1 < ParseFrame(s).code < 0x1_0000
    ensures ParseFrame(s).Parsed? ==>
      var f, size := ParseFrame(s).frame, ParseFrame(s).size;
      && 6 <= size <= |s| && |f.payload| <= MAX_PAYLOAD && f.opcode < 16
      && (OnFrame(state, f).Stop? ==> Replies(s, state) == OnFrame(state, f).out)
      && (OnFrame(state, f).Continue? ==>
            Replies(s, state) == OnFrame(state, f).out + Replies(s[size..], OnFrame(state, f).state))
  {
  }

  /** There is only one first terminator. */
  lemma OneFirstTerminator(s: seq<Byte>, end: nat)
    requires FirstTerminator(s, end)
    ensures end == HeaderEnd(s) && end <= |s|
  {
    var e := HeaderEnd(s);
    if e > 0 { assert Terminator(s, e); }
    if end > 0 { assert Terminator(s, end); }
  }

  /** More bytes do not move the first terminator. */
  lemma HeaderEndOfMore(s: seq<Byte>, more: seq<Byte>)
    requires s <= more && HeaderEnd(s) > 0
    ensures HeaderEnd(more) == HeaderEnd(s)
  {
    var end := HeaderEnd(s);
    assert Terminator(s, end);
    assert forall e :: Terminator(more, e) && e <= |s| ==> Terminator(s, e);
    OneFirstTerminator(more, end);
  }
}
