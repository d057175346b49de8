/**
  The frames exchanged over SPI: two magic bytes, a little-endian length, the payload, a 32-bit
  checksum over all that, and zeros up to the DMA size. A build-time switch decides whether the
  checksum of received frames is looked at, and whether frames that are sent without a request
  from the master carry one; frames that answer a request always do.
 */
module SpiFrame {
  import opened Bytes

  const DMA_SIZE := 2048 * 8
  const MAX_PAYLOAD := DMA_SIZE - 8
  const WORD32 := 0x1_0000_0000

  // ----- Checksum -----

  function Word(high: Byte, low: Byte): nat {
    256 * (high as int) + low
  }

  /** The sum of the big-endian 16-bit words of `data`; an odd last byte is a word's high half. */
  function WordSum(data: seq<Byte>): nat {
    if data == [] then 0
    else WordSum(data[..|data| - 1]) + Weighed(data, |data| - 1)
  }

  function Weighed(data: seq<Byte>, i: nat): nat
    requires i < |data|
  {
    if i % 2 == 0 then Word(data[i], 0) else data[i]
  }

  function Checksum(data: seq<Byte>): nat {
    WordSum(data) % WORD32
  }

  lemma WordSumStep(data: seq<Byte>, i: nat)
    requires i < |data|
    ensures WordSum(data[..i + 1]) == WordSum(data[..i]) + Weighed(data, i)
  {
    assert data[..i + 1][..i] == data[..i];
  }

  lemma WordSumPair(data: seq<Byte>, i: nat)
    requires i + 1 < |data| && i % 2 == 0
    ensures WordSum(data[..i + 2]) == WordSum(data[..i]) + Word(data[i], data[i + 1])
  {
    WordSumStep(data, i);
    WordSumStep(data, i + 1);
  }

  lemma WrapOnce(a: nat, b: nat)
    ensures (a % WORD32 + b) % WORD32 == (a + b) % WORD32
  {
    var q := a / WORD32;
    assert a + b == a % WORD32 + b + q * WORD32;
    ModuloShift(a % WORD32 + b, q);
  }

  lemma {:induction false} ModuloShift(x: nat, q: nat)
    ensures (x + q * WORD32) % WORD32 == x % WORD32
  {
    if q > 0 {
      ModuloShift(x, q - 1);
      assert x + q * WORD32 == x + (q - 1) * WORD32 + WORD32;
    }
  }

  /** checksum_32_spi over the first `len` bytes, in 32-bit arithmetic. */
  method ComputeChecksum(start: nat, data: array<Byte>, len: nat) returns (sum: nat)
    requires start < WORD32 && len <= data.Length
    ensures sum == (start + WordSum(data[..len])) % WORD32
  {
    assert WordSum(data[..0]) == 0;
    hide WordSum;
    sum := start;
    var i := 0;
    while i < len / 2 * 2
      invariant i <= len / 2 * 2 && i % 2 == 0
      invariant sum == (start + WordSum(data[..i])) % WORD32
    {
      var word := Word(data[i], data[i + 1]);
      WordSumPair(data[..], i);
      assert data[..][..i] == data[..i] && data[..][..i + 2] == data[..i + 2];
      WrapOnce(start + WordSum(data[..i]), word);
      sum := (sum + word) % WORD32;
      i := i + 2;
    }
    if len % 2 != 0 {
      WordSumStep(data[..], len - 1);
      assert data[..][..len - 1] == data[..len - 1] && data[..][..len - 1 + 1] == data[..len];
      WrapOnce(start + WordSum(data[..len - 1]), Word(data[len - 1], 0));
      sum := (sum + Word(data[len - 1], 0)) % WORD32;
    }
  }

  lemma {:induction false} WordSumBound(data: seq<Byte>)
    ensures WordSum(data) <= |data| * 255 * 256
  {
    if data != [] {
      WordSumBound(data[..|data| - 1]);
    }
  }

  /** A whole DMA buffer does not wrap 32 bits: the checksum is the sum itself. */
  lemma ChecksumDoesNotWrap(data: seq<Byte>)
    requires |data| <= DMA_SIZE
    ensures Checksum(data) == WordSum(data)
  {
    WordSumBound(data);
  }

  lemma {:induction false} WordSumUpdate(data: seq<Byte>, i: nat, b: Byte)
    requires i < |data|
    ensures WordSum(data[i := b]) == WordSum(data) + (b - data[i]) * (if i % 2 == 0 then 256 else 1)
  {
    var n := |data| - 1;
    if i < n {
      WordSumUpdate(data[..n], i, b);
      assert data[i := b][..n] == data[..n][i := b];
    } else {
      assert data[i := b][..n] == data[..n];
    }
  }

  /** Changing any one byte changes the checksum, at every length. */
  lemma ByteChangeAltersChecksum(data: seq<Byte>, i: nat, b: Byte)
    requires i < |data| && b != data[i]
    ensures Checksum(data[i := b]) != Checksum(data)
  {
    WordSumUpdate(data, i, b);
    var x, y := WordSum(data), WordSum(data[i := b]);
    Distinct(if x < y then x else y, if x < y then y - x else x - y);
  }

  lemma Distinct(x: nat, d: nat)
    requires 0 < d < WORD32
    ensures (x + d) % WORD32 != x % WORD32
  {
  }

  // ----- Frames -----

  function Little16(n: nat): seq<Byte> {
    [n % 256, n / 256 % 256]
  }

  function Little32(n: nat): seq<Byte> {
    [n % 256, n / 256 % 256, n / 0x1_0000 % 256, n / 0x100_0000 % 256]
  }

  function Word32At(frame: seq<Byte>, i: nat): nat
    requires i + 4 <= |frame|
  {
    Word(frame[i + 1], frame[i]) + 0x1_0000 * Word(frame[i + 3], frame[i + 2])
  }

  lemma Little32RoundTrip(n: nat)
    requires n < WORD32
    ensures |Little32(n)| == 4 && Word32At(Little32(n), 0) == n
  {
    assert n / 0x100_0000 < 256;
    assert n == n % 256 + 256 * (n / 256);
    assert n / 256 == n / 256 % 256 + 256 * (n / 0x1_0000);
    assert n / 0x1_0000 == n / 0x1_0000 % 256 + 256 * (n / 0x100_0000);
  }

  function Headed(payload: seq<Byte>): seq<Byte> {
    [0x41, 0x54] + Little16(|payload|) + payload
  }

  function Zeros(n: nat): seq<Byte> {
    seq(n, i => 0)
  }

  /** The checksum field: zero where no checksum is added. */
  function Field(payload: seq<Byte>, summed: bool): nat {
    if summed then Checksum(Headed(payload)) else 0
  }

  function Frame(payload: seq<Byte>, summed: bool): (frame: seq<Byte>)
    requires |payload| <= MAX_PAYLOAD
    ensures |frame| == DMA_SIZE
  {
    Headed(payload) + Little32(Field(payload, summed)) + Zeros(MAX_PAYLOAD - |payload|)
  }

  datatype Reception = NoPacket | LengthError | ChecksumError | Received(payload: seq<Byte>)

  /** What the SPI task makes of a full receive buffer. */
  function Receive(frame: seq<Byte>, checking: bool): Reception
    requires |frame| == DMA_SIZE
  {
    if frame[0] != 0x41 || frame[1] != 0x54 then NoPacket
    else
      var n := Word(frame[3], frame[2]);
      if n > MAX_PAYLOAD then LengthError
      else if checking && Checksum(frame[..n + 4]) != Word32At(frame, n + 4) then ChecksumError
      else Received(frame[4..n + 4])
  }

  lemma FrameLayout(payload: seq<Byte>, summed: bool)
    requires |payload| <= MAX_PAYLOAD
    ensures Frame(payload, summed)[0] == 0x41 && Frame(payload, summed)[1] == 0x54
    ensures Word(Frame(payload, summed)[3], Frame(payload, summed)[2]) == |payload|
    ensures Frame(payload, summed)[4..|payload| + 4] == payload
    ensures Frame(payload, summed)[..|payload| + 4] == Headed(payload)
    ensures Word32At(Frame(payload, summed), |payload| + 4) == Field(payload, summed)
  {
    hide Checksum, Field, Headed, Little32, Word32At, Word;
    var h, c := Headed(payload), Little32(Field(payload, summed));
    HeaderLayout(payload);
    FieldIsWord(payload, summed);
    Little32RoundTrip(Field(payload, summed));
    var f := h + c + Zeros(MAX_PAYLOAD - |payload|);
    assert f[..|h|] == h && f[4..|h|] == h[4..];
    assert forall k :: 0 <= k < 4 ==> f[|h| + k] == c[k];
    ShiftedWord32(c, f, |h|);
  }

  lemma HeaderLayout(payload: seq<Byte>)
    requires |payload| <= MAX_PAYLOAD
    ensures |Headed(payload)| == |payload| + 4 && Headed(payload)[4..] == payload
    ensures Headed(payload)[0] == 0x41 && Headed(payload)[1] == 0x54
    ensures Word(Headed(payload)[3], Headed(payload)[2]) == |payload|
  {
  }

  lemma ChecksumIsWord(data: seq<Byte>)
    ensures Checksum(data) < WORD32
  {
  }

  lemma FieldIsWord(payload: seq<Byte>, summed: bool)
    ensures Field(payload, summed) < WORD32
  {
  }

  /** Every payload that fits is received as it was sent. */
  lemma FrameRoundTrip(payload: seq<Byte>, summed: bool, checking: bool)
    requires |payload| <= MAX_PAYLOAD && (checking ==> summed)
    ensures Receive(Frame(payload, summed), checking) == Received(payload)
  {
    hide Frame, Checksum, Word32At;
    FrameLayout(payload, summed);
  }

  /** With checking, one damaged byte of the magic, the payload or the checksum is always seen. */
  lemma DamageIsSeen(payload: seq<Byte>, i: nat, b: Byte)
    requires |payload| <= MAX_PAYLOAD && i < |payload| + 8 && i != 2 && i != 3
    requires b != Frame(payload, true)[i]
    ensures Receive(Frame(payload, true)[i := b], true) == if i < 2 then NoPacket else ChecksumError
  {
    hide Frame, Checksum, Word32At;
    FrameLayout(payload, true);
    var n, f := |payload|, Frame(payload, true);
    var g := f[i := b];
    if 4 <= i < n + 4 {
      assert g[..n + 4] == f[..n + 4][i := b];
      ByteChangeAltersChecksum(f[..n + 4], i, b);
      SameWord32(f, g, n + 4);
    } else if n + 4 <= i {
      assert g[..n + 4] == f[..n + 4];
      Word32Changes(f, n + 4, i, b);
    }
  }

  /** Without checking, a damaged payload byte is delivered as it is. */
  lemma UncheckedDamagePasses(payload: seq<Byte>, summed: bool, i: nat, b: Byte)
    requires |payload| <= MAX_PAYLOAD && i < |payload|
    ensures Receive(Frame(payload, summed)[i + 4 := b], false) == Received(payload[i := b])
  {
    hide Frame, Checksum, Word32At;
    FrameLayout(payload, summed);
    var n, f := |payload|, Frame(payload, summed);
    assert f[i + 4 := b][4..n + 4] == f[4..n + 4][i := b];
  }

  lemma SameWord32(f: seq<Byte>, g: seq<Byte>, at: nat)
    requires at + 4 <= |f| == |g| && forall i :: at <= i < at + 4 ==> f[i] == g[i]
    ensures Word32At(f, at) == Word32At(g, at)
  {
  }

  lemma Word32Changes(f: seq<Byte>, at: nat, i: nat, b: Byte)
    requires at <= i < at + 4 <= |f| && b != f[i]
    ensures Word32At(f[i := b], at) != Word32At(f, at)
  {
  }

  /** Damage behind the checksum changes nothing. */
  lemma PaddingDamageIsHarmless(payload: seq<Byte>, summed: bool, checking: bool, i: nat, b: Byte)
    requires |payload| + 8 <= i < DMA_SIZE && (checking ==> summed)
    ensures Receive(Frame(payload, summed)[i := b], checking) == Received(payload)
  {
    hide Frame, Checksum, Word32At;
    FrameLayout(payload, summed);
    var n, f := |payload|, Frame(payload, summed);
    var g := f[i := b];
    assert g[..n + 4] == f[..n + 4] && g[4..n + 4] == f[4..n + 4];
    SameWord32(f, g, n + 4);
  }

  /** A payload that happens to start with the rest of another one's frame. */
  function Nested(inner: seq<Byte>, filler: seq<Byte>): seq<Byte> {
    inner + Little32(Checksum(Headed(inner))) + filler
  }

  /** With the length of the inner payload the frame is received as the inner one. */
  lemma NestedIsReceived(inner: seq<Byte>, filler: seq<Byte>, g: seq<Byte>)
    requires |inner| + |filler| + 4 <= MAX_PAYLOAD && |Nested(inner, filler)| <= MAX_PAYLOAD
    requires var f: seq<Byte> := Frame(Nested(inner, filler), true)[2 := |inner| % 256];
             g == f[3 := |inner| / 256]
    ensures Receive(g, true) == Received(inner)
  {
    hide Frame, Checksum, Word32At, Field, Little32, Headed, Word;
    var n, p, c := |inner|, Nested(inner, filler), Little32(Checksum(Headed(inner)));
    ChecksumIsWord(Headed(inner));
    Little32RoundTrip(Checksum(Headed(inner)));
    var f := Frame(p, true);
    FrameLayout(p, true);
    assert forall k :: 0 <= k < |p| ==> g[4 + k] == f[4..|p| + 4][k] == p[k];
    assert f[0] == f[..|p| + 4][0] && f[1] == f[..|p| + 4][1];
    HeaderLayout(inner);
    InnerHeader(inner, g);
    assert forall k :: 0 <= k < 4 ==> g[n + 4 + k] == p[n + k] == c[k];
    ShiftedWord32(c, g, n + 4);
    assert g[4..n + 4] == g[..n + 4][4..];
    assert g[2] == g[..n + 4][2] && g[3] == g[..n + 4][3];
  }

  lemma InnerHeader(inner: seq<Byte>, g: seq<Byte>)
    requires |inner| + 4 <= |g| && |inner| < 0x1_0000
    requires g[0] == 0x41 && g[1] == 0x54 && g[2] == |inner| % 256 && g[3] == |inner| / 256
    requires forall k :: 0 <= k < |inner| ==> g[4 + k] == inner[k]
    ensures g[..|inner| + 4] == Headed(inner)
  {
    var h := Headed(inner);
    assert forall k :: 4 <= k < |inner| + 4 ==> g[4 + (k - 4)] == inner[k - 4] == h[k];
  }

  /** Both bytes of the length matter: one changed byte turns such a frame into a shorter one. */
  lemma LengthDamageCanGoUnseen(inner: seq<Byte>, i: nat)
    returns (payload: seq<Byte>, b: Byte)
    requires i == 2 || i == 3
    requires |inner| + 256 <= MAX_PAYLOAD && (i == 2 ==> |inner| % 256 < 252)
    ensures i < |payload| + 8 <= DMA_SIZE && b != Frame(payload, true)[i]
    ensures Receive(Frame(payload, true)[i := b], true) == Received(inner)
  {
    hide Frame, Checksum, Word32At, Field, Little32, Headed, Receive;
    var n := |inner|;
    var filler := if i == 2 then [] else Zeros(252);
    payload := Nested(inner, filler);
    ChecksumIsWord(Headed(inner));
    Little32RoundTrip(Checksum(Headed(inner)));
    var f := Frame(payload, true);
    LengthBytes(payload);
    NextLength(n, |filler|);
    var low: Byte, high: Byte := n % 256, n / 256;
    b := if i == 2 then low else high;
    var g: seq<Byte> := f[2 := low];
    assert g[3 := high] == f[i := b];
    NestedIsReceived(inner, filler, f[i := b]);
  }

  lemma LengthBytes(payload: seq<Byte>)
    requires |payload| <= MAX_PAYLOAD
    ensures Frame(payload, true)[2] == |payload| % 256 && Frame(payload, true)[3] == |payload| / 256
  {
    FrameLayout(payload, true);
    var f := Frame(payload, true);
    assert f[2] == f[..|payload| + 4][2] && f[3] == f[..|payload| + 4][3];
  }

  lemma NextLength(n: nat, filler: nat)
    ensures filler == 0 && n % 256 < 252 ==> (n + 4) / 256 == n / 256 && (n + 4) % 256 != n % 256
    ensures filler == 252 ==> (n + 4 + filler) / 256 == n / 256 + 1 && (n + 4 + filler) % 256 == n % 256
  {
  }

  predicate Unseen(payload: seq<Byte>, i: nat, b: Byte) {
    && |payload| <= MAX_PAYLOAD && i < |payload| + 8 && b != Frame(payload, true)[i]
    && Receive(Frame(payload, true)[i := b], true).Received?
  }

  /** Where checksums are checked, exactly the damage to the two length bytes can go unseen. */
  lemma DamageIsSeenIff(i: nat)
    ensures (forall payload, b :: !Unseen(payload, i, b)) <==> i != 2 && i != 3
  {
    hide Frame, Receive;
    if i == 2 || i == 3 {
      var payload, b := LengthDamageCanGoUnseen([], i);
      assert Unseen(payload, i, b);
    } else {
      forall payload, b ensures !Unseen(payload, i, b) {
        if Unseen(payload, i, b) {
          DamageIsSeen(payload, i, b);
        }
      }
    }
  }

  lemma ShiftedWord32(c: seq<Byte>, g: seq<Byte>, at: nat)
    requires |c| == 4 && at + 4 <= |g| && forall k :: 0 <= k < 4 ==> g[at + k] == c[k]
    ensures Word32At(g, at) == Word32At(c, 0)
  {
    assert g[at + 0] == c[0] && g[at + 1] == c[1] && g[at + 2] == c[2] && g[at + 3] == c[3];
  }

  method FillPayload(buf: array<Byte>, payload: seq<Byte>)
    requires 4 + |payload| <= buf.Length
    modifies buf
    ensures buf[4..4 + |payload|] == payload
    ensures buf[4 + |payload|..] == Zeros(buf.Length - 4 - |payload|)
  {
    for i := 0 to buf.Length
      invariant forall k :: 0 <= k < i ==> buf[k] == 0
    {
      buf[i] := 0;
    }
    for i := 0 to |payload|
      invariant buf[4..4 + i] == payload[..i]
      invariant forall k :: 4 + i <= k < buf.Length ==> buf[k] == 0
    {
      buf[4 + i] := payload[i];
    }
  }

  /** The SPI task fills its transmit buffer with exactly one frame. */
  method BuildFrame(buf: array<Byte>, payload: seq<Byte>, summed: bool)
    requires buf.Length == DMA_SIZE && |payload| <= MAX_PAYLOAD
    modifies buf
    ensures buf[..] == Frame(payload, summed)
  {
    hide Checksum, WordSum, Headed, Field, Zeros, Little32;
    var n := |payload|;
    FillPayload(buf, payload);
    FillHeader(buf, payload);
    HeaderLayout(payload);
    ZerosSplit(MAX_PAYLOAD - n);
    assert buf[n + 4..n + 8] == buf[n + 4..][..4] && buf[n + 8..] == buf[n + 4..][4..];
    FieldMeans(payload, summed);
    if summed {
      var sum := ComputeChecksum(0, buf, n + 4);
      ChecksumMeans(Headed(payload));
      StoreChecksum(buf, n + 4, sum);
    }
    assert buf[..] == buf[..n + 4] + buf[n + 4..n + 8] + buf[n + 8..];
  }

  lemma ZerosSplit(n: nat)
    ensures Zeros(n + 4)[..4] == Little32(0) && Zeros(n + 4)[4..] == Zeros(n)
  {
  }

  method FillHeader(buf: array<Byte>, payload: seq<Byte>)
    requires 4 + |payload| <= buf.Length && buf[4..4 + |payload|] == payload
    modifies buf
    ensures buf[..4 + |payload|] == Headed(payload) && buf[4 + |payload|..] == old(buf[4 + |payload|..])
  {
    var n := |payload|;
    buf[0], buf[1] := 0x41, 0x54;
    buf[2], buf[3] := n % 256, n / 256 % 256;
    assert buf[4..4 + n] == payload;
  }

  lemma FieldMeans(payload: seq<Byte>, summed: bool)
    ensures Field(payload, summed) == if summed then Checksum(Headed(payload)) else 0
  {
  }

  lemma ChecksumMeans(data: seq<Byte>)
    ensures Checksum(data) == WordSum(data) % WORD32
  {
  }

  method StoreChecksum(buf: array<Byte>, at: nat, sum: nat)
    requires at + 4 <= buf.Length
    modifies buf
    ensures buf[at..at + 4] == Little32(sum)
    ensures buf[..at] == old(buf[..at]) && buf[at + 4..] == old(buf[at + 4..])
  {
    buf[at], buf[at + 1] := sum % 256, sum / 256 % 256;
    buf[at + 2], buf[at + 3] := sum / 0x1_0000 % 256, sum / 0x100_0000 % 256;
  }
}
