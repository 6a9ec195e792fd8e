/** The WebSocket frames of the echo example: RFC 6455, sections 5.2, 5.3 and 5.5.

    The parser reads client frames, the printer writes server frames; the client's two
    halves mirror them. */
module WsCodec {
  import opened Arithmetic

  type Byte = n: nat | n < 256

  const MAX_PAYLOAD: nat := 65536
  const MAX_REQUEST: nat := 4096

  const OP_CONT: nat := 0x0
  const OP_TEXT: nat := 0x1
  const OP_BIN: nat := 0x2
  const OP_CLOSE: nat := 0x8
  const OP_PING: nat := 0x9
  const OP_PONG: nat := 0xA

  const CLOSE_PROTOCOL: nat := 1002
  const CLOSE_TOO_BIG: nat := 1009

  const TWO_TO_63: nat := 0x8000_0000_0000_0000

  // ----- bytes -----

  /** The exclusive or of the `k` low bits. */
  function XorBits(a: nat, b: nat, k: nat): (x: nat)
    ensures x < Power2(k)
  {
    if k == 0 then 0 else 2 * XorBits(a / 2, b / 2, k - 1) + (a + b) % 2
  }

  function Power2(k: nat): (p: nat)
    ensures p > 0
  {
    if k == 0 then 1 else 2 * Power2(k - 1)
  }

  function Xor(a: Byte, b: Byte): Byte {
    assert Power2(8) == 256;
    XorBits(a, b, 8)
  }

  lemma XorStep(a: nat, b: nat, k: nat)
    requires k > 0
    ensures XorBits(a, b, k) == 2 * XorBits(a / 2, b / 2, k - 1) + (a + b) % 2
    ensures Power2(k) == 2 * Power2(k - 1)
  {
  }

  lemma {:induction false} XorBitsTwice(a: nat, b: nat, k: nat)
    requires a < Power2(k)
    ensures XorBits(XorBits(a, b, k), b, k) == a
  {
    hide XorBits, Power2;
    if k == 0 {
      XorNothing(a, b);
    } else {
      var high, low := XorBits(a / 2, b / 2, k - 1), (a + b) % 2;
      XorStep(a, b, k);
      Halves(a, Power2(k - 1));
      XorBitsTwice(a / 2, b / 2, k - 1);
      LowBit(a, b, high);
      XorStep(2 * high + low, b, k);
    }
  }

  lemma XorNothing(a: nat, b: nat)
    ensures Power2(0) == 1 && XorBits(a, b, 0) == 0
  {
  }

  lemma Halves(a: nat, p: nat)
    requires a < 2 * p
    ensures a / 2 < p
  {
  }

  lemma LowBit(a: nat, b: nat, high: nat)
    ensures var x := 2 * high + (a + b) % 2; x / 2 == high && (x + b) % 2 == a % 2
    ensures 2 * (a / 2) + a % 2 == a
  {
    var low := (a + b) % 2;
    assert (2 * high + low) / 2 == high;
    var i, j := a / 2, b / 2;
    assert a == 2 * i + a % 2 && b == 2 * j + b % 2;
    assert (2 * high + low + b) % 2 == (low + b % 2) % 2;
    assert low == (a % 2 + b % 2) % 2;
  }

  /** Each bit is set exactly if one of the two is. */
  lemma {:induction false} XorBitAt(a: nat, b: nat, k: nat, i: nat)
    requires i < k
    ensures XorBits(a, b, k) / Power2(i) % 2 == (a / Power2(i) + b / Power2(i)) % 2
  {
    XorStep(a, b, k);
    var high := XorBits(a / 2, b / 2, k - 1);
    if i == 0 {
      assert Power2(0) == 1 && (2 * high + (a + b) % 2) % 2 == (a + b) % 2;
    } else {
      XorBitAt(a / 2, b / 2, k - 1, i - 1);
      assert XorBits(a, b, k) / 2 == high;
      var p := Power2(i - 1);
      assert Power2(i) == 2 * p;
      HalveFirst(a, p);
      HalveFirst(b, p);
      HalveFirst(XorBits(a, b, k), p);
    }
  }

  lemma HalveFirst(n: nat, p: nat)
    requires p > 0
    ensures n / (2 * p) == n / 2 / p
  {
    var q, r := n / 2 / p, n / 2 % p;
    assert n == 2 * (q * p + r) + n % 2 == q * (2 * p) + (2 * r + n % 2);
    QuotientUnique(n / (2 * p), n % (2 * p), q, 2 * r + n % 2, 2 * p);
  }

  lemma XorTwice(a: Byte, b: Byte)
    ensures Xor(Xor(a, b), b) == a
  {
    assert Power2(8) == 256;
    XorBitsTwice(a, b, 8);
  }

  /** The number whose digits to base 256 are `s`, the most significant first. */
  function BigEndian(s: seq<Byte>): nat {
    if s == [] then 0 else BigEndian(s[..|s| - 1]) * 256 + s[|s| - 1]
  }

  function ToBigEndian(n: nat, k: nat): (s: seq<Byte>)
    ensures |s| == k
  {
    if k == 0 then [] else ToBigEndian(n / 256, k - 1) + [n % 256]
  }

  function Power256(k: nat): nat { if k == 0 then 1 else 256 * Power256(k - 1) }

  lemma {:induction false} BigEndianInverts(n: nat, k: nat)
    requires n < Power256(k)
    ensures BigEndian(ToBigEndian(n, k)) == n
  {
    if k > 0 {
      BigEndianInverts(n / 256, k - 1);
      assert ToBigEndian(n, k)[..k - 1] == ToBigEndian(n / 256, k - 1);
    }
  }

  lemma {:induction false} ToBigEndianInverts(s: seq<Byte>)
    ensures ToBigEndian(BigEndian(s), |s|) == s && BigEndian(s) < Power256(|s|)
  {
    if s != [] {
      ToBigEndianInverts(s[..|s| - 1]);
      assert s == s[..|s| - 1] + [s[|s| - 1]];
    }
  }

  /** The first digit counts most. */
  lemma {:induction false} FirstDigitCountsMost(d: Byte, s: seq<Byte>)
    ensures BigEndian([d] + s) == d * Power256(|s|) + BigEndian(s)
  {
    if s == [] {
      assert ([d] + s)[..0] == [];
    } else {
      var front, last := s[..|s| - 1], s[|s| - 1];
      FirstDigitCountsMost(d, front);
      assert ([d] + s)[..|s|] == [d] + front;
      assert (d * Power256(|front|) + BigEndian(front)) * 256 == d * Power256(|s|) + BigEndian(front) * 256;
    }
  }

  function Masked(p: seq<Byte>, mask: seq<Byte>): (m: seq<Byte>)
    requires |mask| == 4
    ensures |m| == |p|
  {
    seq(|p|, i requires 0 <= i < |p| => Xor(p[i], mask[i % 4]))
  }

  lemma MaskedTwice(p: seq<Byte>, mask: seq<Byte>)
    requires |mask| == 4
    ensures Masked(Masked(p, mask), mask) == p
  {
    forall i | 0 <= i < |p| ensures Masked(Masked(p, mask), mask)[i] == p[i] {
      XorTwice(p[i], mask[i % 4]);
    }
  }

  // ----- frames -----

  datatype Frame = Frame(fin: bool, opcode: nat, mask: seq<Byte>, payload: seq<Byte>)

  predicate Known(opcode: nat) { opcode <= OP_BIN || OP_CLOSE <= opcode <= OP_PONG }

  /** What a client may send: section 5.2, and 5.5 for control frames. */
  predicate Legal(f: Frame) {
    && |f.mask| == 4 && Known(f.opcode) && |f.payload| <= MAX_PAYLOAD
    && (f.opcode >= OP_CLOSE ==> f.fin && |f.payload| <= 125)
  }

  /** The payload length in its shortest form. */
  function LengthField(n: nat): (l: seq<Byte>)
    ensures |l| == (if n < 126 then 1 else if n <= 0xFFFF then 3 else 9) && l[0] < 128
  {
    if n < 126 then [n]
    else if n <= 0xFFFF then [126] + ToBigEndian(n, 2)
    else [127] + ToBigEndian(n, 8)
  }

  function ClientFrame(f: Frame): (s: seq<Byte>)
    requires |f.mask| == 4 && f.opcode < 16
    ensures |s| >= 6
  {
    var l := LengthField(|f.payload|);
    [(if f.fin then 128 else 0) + f.opcode, 128 + l[0]] + l[1..] + f.mask + Masked(f.payload, f.mask)
  }

  function ServerFrame(opcode: nat, payload: seq<Byte>): (s: seq<Byte>)
    requires opcode < 16
    ensures |s| >= 2
  {
    [128 + opcode] + LengthField(|payload|) + payload
  }

  function CloseFrame(code: nat): seq<Byte> { ServerFrame(OP_CLOSE, ToBigEndian(code, 2)) }

  // ----- the server's parser -----

  datatype Parse = Incomplete | Violation(code: nat) | Parsed(frame: Frame, size: nat)

  /** How many bytes of extended length follow a length byte. */
  function Extended(n: nat): nat { if n == 126 then 2 else if n == 127 then 8 else 0 }

  predicate Shortest(extended: nat, n: nat) {
    && (extended == 2 ==> n >= 126)
    && (extended == 8 ==> n > 0xFFFF && n < TWO_TO_63)
  }

  /** The close code for a length `n` that the length byte `n7` led to, or 0. */
  function Refusal(fin: bool, opcode: nat, n7: nat, n: nat): nat {
    if !Shortest(Extended(n7), n) || (opcode >= OP_CLOSE && (!fin || n > 125)) then CLOSE_PROTOCOL
    else if n > MAX_PAYLOAD then CLOSE_TOO_BIG
    else 0
  }

  /** A client frame whose header has been read: `u` is the mask, the payload and what
      follows, and `read` the size of the header. */
  function ParsePayload(fin: bool, opcode: nat, n: nat, u: seq<Byte>, read: nat): Parse {
    if |u| < 4 + n then Incomplete
    else Parsed(Frame(fin, opcode, u[..4], Masked(u[4..4 + n], u[..4])), read + 4 + n)
  }

  /** A client frame behind its first two bytes. */
  function ParseLength(fin: bool, opcode: nat, n7: nat, t: seq<Byte>): Parse {
    var x := Extended(n7);
    if |t| < x then Incomplete
    else
      var n := if x == 0 then n7 else BigEndian(t[..x]);
      if Refusal(fin, opcode, n7, n) != 0 then Violation(Refusal(fin, opcode, n7, n))
      else ParsePayload(fin, opcode, n, t[x..], 2 + x)
  }

  /** The frame a byte stream begins with. */
  function ParseFrame(s: seq<Byte>): (p: Parse)
    ensures p.Parsed? ==> 6 <= p.size <= |s| && |p.frame.payload| <= MAX_PAYLOAD && Known(p.frame.opcode)
  {
    if |s| < 2 then Incomplete
    else if s[0] / 16 % 8 != 0 || !Known(s[0] % 16) || s[1] / 128 != 1 then Violation(CLOSE_PROTOCOL)
    else ParseLength(s[0] / 128 == 1, s[0] % 16, s[1] % 128, s[2..])
  }

  lemma PowersOf256()
    ensures Power256(2) == 0x1_0000 && Power256(8) == 0x1_0000_0000_0000_0000
  {
    assert Power256(4) == 0x1_0000_0000;
  }

  /** The length field is read back, whatever follows it. */
  lemma LengthReadBack(n: nat, l: seq<Byte>)
    requires n < Power256(8) && l == LengthField(n)
    ensures |l| == 1 + Extended(l[0])
    ensures n == if |l| == 1 then l[0] else BigEndian(l[1..])
    ensures n < TWO_TO_63 ==> Shortest(Extended(l[0]), n)
  {
    PowersOf256();
    if n >= 126 {
      BigEndianInverts(n, if n <= 0xFFFF then 2 else 8);
    }
  }

  /** A length read from its shortest form is written back in the same bytes. */
  lemma LengthCanonical(l: seq<Byte>, n: nat)
    requires |l| >= 1 && l[0] < 128 && |l| == 1 + Extended(l[0])
    requires n == if |l| == 1 then l[0] else BigEndian(l[1..])
    requires Shortest(Extended(l[0]), n)
    ensures LengthField(n) == l
  {
    PowersOf256();
    ToBigEndianInverts(l[1..]);
  }

  lemma PayloadInverts(f: Frame, rest: seq<Byte>, read: nat)
    requires Legal(f)
    ensures ParsePayload(f.fin, f.opcode, |f.payload|, f.mask + Masked(f.payload, f.mask) + rest, read)
      == Parsed(f, read + 4 + |f.payload|)
  {
    var m := Masked(f.payload, f.mask);
    var u := f.mask + m + rest;
    assert u[..4] == f.mask && u[4..4 + |m|] == m;
    MaskedTwice(f.payload, f.mask);
  }

  lemma LengthInverts(f: Frame, rest: seq<Byte>)
    requires Legal(f)
    ensures var l := LengthField(|f.payload|);
      var t := l[1..] + (f.mask + Masked(f.payload, f.mask) + rest);
      ParseLength(f.fin, f.opcode, l[0], t) == Parsed(f, 1 + |l| + 4 + |f.payload|)
  {
    hide ParsePayload, Masked, Known;
    var l := LengthField(|f.payload|);
    var u := f.mask + Masked(f.payload, f.mask) + rest;
    PowersOf256();
    LengthReadBack(|f.payload|, l);
    assert (l[1..] + u)[..|l| - 1] == l[1..] && (l[1..] + u)[|l| - 1..] == u;
    PayloadInverts(f, rest, 1 + |l|);
  }

  /** The parser inverts the client's printer, for every legal frame and whatever comes
      behind it. */
  lemma ParseInverts(f: Frame, rest: seq<Byte>)
    requires Legal(f)
    ensures ParseFrame(ClientFrame(f) + rest) == Parsed(f, |ClientFrame(f)|)
  {
    hide ParseLength, Masked, LengthField;
    var l := LengthField(|f.payload|);
    var u := f.mask + Masked(f.payload, f.mask) + rest;
    assert (ClientFrame(f) + rest)[2..] == l[1..] + u;
    HeadByte(f.fin, f.opcode);
    LengthInverts(f, rest);
  }

  lemma HeadByte(fin: bool, opcode: nat)
    requires opcode < 16
    ensures var b := (if fin then 128 else 0) + opcode;
      b % 16 == opcode && b / 16 % 8 == 0 && (b / 128 == 1 <==> fin)
  {
  }

  lemma SplitByte(b: Byte)
    ensures b == b / 128 * 128 + b % 128 && b % 128 == b / 16 % 8 * 16 + b % 16
  {
  }

  lemma PayloadCanonical(fin: bool, opcode: nat, n: nat, u: seq<Byte>, read: nat)
    requires ParsePayload(fin, opcode, n, u, read).Parsed?
    ensures var p := ParsePayload(fin, opcode, n, u, read); var f := p.frame;
      && p.size == read + 4 + n <= read + |u| && |f.mask| == 4 && |f.payload| == n && f.fin == fin && f.opcode == opcode
      && u[..4 + n] == f.mask + Masked(f.payload, f.mask)
  {
    MaskedTwice(u[4..4 + n], u[..4]);
    assert u[..4 + n] == u[..4] + u[4..4 + n];
  }

  lemma RestCanonical(fin: bool, opcode: nat, n7: nat, t: seq<Byte>)
    requires n7 < 128 && Known(opcode) && ParseLength(fin, opcode, n7, t).Parsed?
    ensures var p := ParseLength(fin, opcode, n7, t); var f := p.frame;
      && Legal(f) && f.fin == fin && f.opcode == opcode
      && 2 <= p.size <= 2 + |t| && LengthField(|f.payload|)[0] == n7
      && t[..p.size - 2] == LengthField(|f.payload|)[1..] + f.mask + Masked(f.payload, f.mask)
  {
    hide ParsePayload, Masked, LengthField, BigEndian;
    var x := Extended(n7);
    var n := if x == 0 then n7 else BigEndian(t[..x]);
    var u := t[x..];
    var l: seq<Byte> := [n7] + t[..x];
    PayloadCanonical(fin, opcode, n, u, 2 + x);
    assert l[1..] == t[..x];
    LengthCanonical(l, n);
    Front(t, x, 4 + n);
  }

  lemma Front(t: seq<Byte>, x: nat, y: nat)
    requires x + y <= |t|
    ensures t[..x + y] == t[..x] + t[x..][..y]
  {
  }

  /** Only canonical bytes are accepted: printing an accepted frame gives the bytes read. */
  lemma ParseCanonical(s: seq<Byte>)
    requires ParseFrame(s).Parsed?
    ensures var p := ParseFrame(s); Legal(p.frame) && p.size <= |s| && s[..p.size] == ClientFrame(p.frame)
  {
    hide ParseLength, Masked, LengthField;
    var size := ParseFrame(s).size;
    RestCanonical(s[0] / 128 == 1, s[0] % 16, s[1] % 128, s[2..]);
    SplitByte(s[0]);
    SplitByte(s[1]);
    assert s[..size] == [s[0], s[1]] + s[2..][..size - 2];
  }

  /** A stream begins with a frame exactly if it begins with the bytes of a legal frame. */
  lemma AcceptsExactlyTheLegal(s: seq<Byte>, f: Frame, size: nat)
    ensures ParseFrame(s) == Parsed(f, size) <==> Legal(f) && size == |ClientFrame(f)| && ClientFrame(f) <= s
  {
    if ParseFrame(s) == Parsed(f, size) {
      ParseCanonical(s);
    }
    if Legal(f) && ClientFrame(f) <= s {
      var n := |ClientFrame(f)|;
      ParseInverts(f, s[n..]);
      assert ClientFrame(f) + s[n..] == s;
    }
  }

  /** A stream that begins like a legal frame is read on. */
  lemma LegalPrefixWaits(s: seq<Byte>, f: Frame)
    requires Legal(f) && s < ClientFrame(f)
    ensures ParseFrame(s).Incomplete?
  {
    hide Masked, LengthField;
    var l := LengthField(|f.payload|);
    if |s| >= 2 {
      PowersOf256();
      HeadByte(f.fin, f.opcode);
      LengthReadBack(|f.payload|, l);
      var t := s[2..];
      if |t| >= |l| - 1 {
        assert t[..|l| - 1] == l[1..];
      }
    }
  }

  function Zeros(n: nat): (s: seq<Byte>)
    ensures |s| == n
  {
    seq(n, _ => 0)
  }

  /** Past any header, what is still incomplete can be completed: by any bytes at all, as
      many as are missing. */
  lemma IncompleteCanComplete(s: seq<Byte>) returns (f: Frame)
    requires |s| >= 10 && ParseFrame(s).Incomplete?
    ensures Legal(f) && s < ClientFrame(f)
  {
    hide Masked, LengthField, Known, BigEndian;
    var x := Extended(s[1] % 128);
    var n := if x == 0 then s[1] % 128 else BigEndian(s[2..][..x]);
    var all := s + Zeros(2 + x + 4 + n - |s|);
    assert all[2..][..x] == s[2..][..x];
    assert ParseFrame(all).Parsed? && ParseFrame(all).size == |all|;
    ParseCanonical(all);
    f := ParseFrame(all).frame;
    assert all[..|all|] == all && s == all[..|s|];
  }

  /** Once the longest header is in: a stream is read on exactly if it is the beginning of a
      legal frame, and refused exactly if it neither begins with one nor begins one. */
  lemma RefusesExactlyTheHopeless(s: seq<Byte>)
    requires |s| >= 10
    ensures ParseFrame(s).Incomplete? <==> exists f :: Legal(f) && s < ClientFrame(f)
    ensures ParseFrame(s).Violation? <==> forall f :: Legal(f) ==> !(s < ClientFrame(f)) && !(ClientFrame(f) <= s)
  {
    if ParseFrame(s).Incomplete? {
      var f := IncompleteCanComplete(s);
    }
    if ParseFrame(s).Parsed? {
      ParseCanonical(s);
    }
    forall f | Legal(f) && s < ClientFrame(f) ensures ParseFrame(s).Incomplete? {
      LegalPrefixWaits(s, f);
    }
    forall f | Legal(f) && ClientFrame(f) <= s ensures ParseFrame(s).Parsed? {
      AcceptsExactlyTheLegal(s, f, |ClientFrame(f)|);
    }
  }

  /** The header of a masked client frame with `n` bytes of payload. */
  function ClientHeader(fin: bool, opcode: nat, n: nat): seq<Byte>
    requires opcode < 16
  {
    [(if fin then 128 else 0) + opcode, 128 + LengthField(n)[0]] + LengthField(n)[1..]
  }

  ghost predicate TooBig(s: seq<Byte>, fin: bool, opcode: nat, n: nat) {
    opcode <= OP_BIN && MAX_PAYLOAD < n < TWO_TO_63 && ClientHeader(fin, opcode, n) <= s
  }

  /** A refusal is for size exactly if the header is that of a data frame too long, and for
      breaking the protocol otherwise. */
  lemma RefusedForSize(s: seq<Byte>)
    ensures ParseFrame(s) == Violation(CLOSE_TOO_BIG) <==> exists fin, opcode, n :: TooBig(s, fin, opcode, n)
    ensures ParseFrame(s).Violation? ==>
      ParseFrame(s).code == CLOSE_TOO_BIG || ParseFrame(s).code == CLOSE_PROTOCOL
  {
    if ParseFrame(s) == Violation(CLOSE_TOO_BIG) {
      HeaderOfTooBig(s);
    }
    forall fin, opcode, n | TooBig(s, fin, opcode, n) ensures ParseFrame(s) == Violation(CLOSE_TOO_BIG) {
      TooBigRefused(s, fin, opcode, n);
    }
  }

  lemma TooBigRefused(s: seq<Byte>, fin: bool, opcode: nat, n: nat)
    requires TooBig(s, fin, opcode, n)
    ensures ParseFrame(s) == Violation(CLOSE_TOO_BIG)
  {
    var l := LengthField(n);
    PowersOf256();
    HeadByte(fin, opcode);
    LengthReadBack(n, l);
    assert s[2..][..|l| - 1] == s[..1 + |l|][2..] == l[1..];
  }

  lemma HeaderOfTooBig(s: seq<Byte>)
    requires ParseFrame(s) == Violation(CLOSE_TOO_BIG)
    ensures exists fin, opcode, n :: TooBig(s, fin, opcode, n)
  {
    var n7, x := s[1] % 128, Extended(s[1] % 128);
    var n := if x == 0 then n7 else BigEndian(s[2..][..x]);
    var l: seq<Byte> := [n7] + s[2..][..x];
    assert l[1..] == s[2..][..x];
    LengthCanonical(l, n);
    SplitByte(s[0]);
    SplitByte(s[1]);
    assert TooBig(s, s[0] / 128 == 1, s[0] % 16, n);
  }

  // ----- the client's parser -----

  datatype Received = Failed | Received(opcode: nat, payload: seq<Byte>, size: nat)

  /** The server frame a byte stream begins with, for a buffer of `cap` bytes. */
  function ParseServer(s: seq<Byte>, cap: nat): Received {
    if |s| < 2 || s[1] / 128 == 1 then Failed
    else
      var h := 2 + Extended(s[1]);
      if |s| < h then Failed
      else
        var n := if h == 2 then s[1] else BigEndian(s[2..h]);
        if n > cap || |s| < h + n then Failed
        else Received(s[0] % 16, s[h..h + n], h + n)
  }

  /** The client reads back whatever the server sends, in each of the three length forms. */
  lemma ClientInvertsServer(opcode: nat, payload: seq<Byte>, cap: nat, rest: seq<Byte>)
    requires opcode < 16 && |payload| <= cap < Power256(8)
    ensures var s := ServerFrame(opcode, payload);
      ParseServer(s + rest, cap) == Received(opcode, payload, |s|)
  {
    var l := LengthField(|payload|);
    var s := ServerFrame(opcode, payload) + rest;
    LengthReadBack(|payload|, l);
    assert s[2..1 + |l|] == l[1..];
    assert s[1 + |l|..1 + |l| + |payload|] == payload;
  }

  /** Section 5.2 of what the server sends: one unfragmented frame with no reserved bit set,
      not masked, whose length is in its shortest form. */
  lemma ServerFrameHeader(opcode: nat, payload: seq<Byte>)
    requires opcode < 16 && |payload| < TWO_TO_63
    ensures var s := ServerFrame(opcode, payload);
      && s[0] / 128 == 1 && s[0] / 16 % 8 == 0 && s[0] % 16 == opcode && s[1] / 128 == 0
      && (s[1] < 126 ==> |payload| == s[1] && s == s[..2] + payload)
      && (s[1] == 126 ==> 126 <= |payload| == BigEndian(s[2..4]) && s == s[..4] + payload)
      && (s[1] == 127 ==> 0xFFFF < |payload| == BigEndian(s[2..10]) && s == s[..10] + payload)
  {
    var l := LengthField(|payload|);
    var s := ServerFrame(opcode, payload);
    PowersOf256();
    LengthReadBack(|payload|, l);
    assert s[1..1 + |l|] == l && s[2..1 + |l|] == l[1..];
  }

  /** Examples of section 5.7: "Hello" as a text frame and in a ping, 256 bytes and 64 KiB of
      binary data. */
  lemma Rfc6455Examples(small: seq<Byte>, large: seq<Byte>)
    requires |small| == 256 && |large| == 65536
    ensures var hello: seq<Byte> := [0x48, 0x65, 0x6c, 0x6c, 0x6f];
      ServerFrame(OP_TEXT, hello) == [0x81, 0x05] + hello && ServerFrame(OP_PING, hello) == [0x89, 0x05] + hello
    ensures ServerFrame(OP_BIN, small) == [0x82, 0x7E, 0x01, 0x00] + small
    ensures ServerFrame(OP_BIN, large) == [0x82, 0x7F, 0, 0, 0, 0, 0, 1, 0, 0] + large
  {
    assert ToBigEndian(256, 2) == [1, 0];
    assert ToBigEndian(65536, 8) == [0, 0, 0, 0, 0, 1, 0, 0];
  }

  /** Section 5.2: continuation, text, binary, close, ping and pong, and no other. */
  lemma KnownOpcodes(opcode: nat)
    ensures Known(opcode) <==> opcode in [0x0, 0x1, 0x2, 0x8, 0x9, 0xA]
  {
  }

  /** The client takes no masked frame, none longer than its buffer, and none cut short. */
  lemma ClientRefuses(s: seq<Byte>, cap: nat, opcode: nat, payload: seq<Byte>)
    requires opcode < 16 && |payload| < Power256(8)
    ensures |s| >= 2 && s[1] / 128 == 1 ==> ParseServer(s, cap).Failed?
    ensures s < ServerFrame(opcode, payload) ==> ParseServer(s, cap).Failed?
    ensures ServerFrame(opcode, payload) <= s && |payload| > cap ==> ParseServer(s, cap).Failed?
  {
    var l := LengthField(|payload|);
    var frame := ServerFrame(opcode, payload);
    LengthReadBack(|payload|, l);
    assert frame[1..1 + |l|] == l && frame[2..1 + |l|] == l[1..];
    if |s| >= 1 + |l| && (s <= frame || frame <= s) {
      assert s[2..1 + |l|] == l[1..];
    }
  }
}
