/** The snapshot file: how long the metadata is, in eight big-endian bytes, then the metadata, then the
    state. */
module Framing {
  import opened Types

  const LEN_BYTES: nat := 8

  function Pow256(n: nat): (p: nat)
    ensures p >= 1
  {
    if n == 0 then 1 else 256 * Pow256(n - 1)
  }

  /** `n` as `width` big-endian bytes, most significant first. */
  function ToBigEndian(n: nat, width: nat): (b: Bytes)
    requires n < Pow256(width)
    ensures |b| == width
  {
    if width == 0 then [] else ToBigEndian(n / 256, width - 1) + [(n % 256) as byte]
  }

  function FromBigEndian(b: Bytes): nat {
    if b == [] then 0 else 256 * FromBigEndian(b[..|b| - 1]) + b[|b| - 1] as nat
  }

  lemma {:induction false} BigEndianReadsBack(n: nat, width: nat)
    requires n < Pow256(width)
    ensures FromBigEndian(ToBigEndian(n, width)) == n
  {
    if width > 0 {
      BigEndianReadsBack(n / 256, width - 1);
      var b := ToBigEndian(n, width);
      assert b[..|b| - 1] == ToBigEndian(n / 256, width - 1);
    }
  }

  lemma {:induction false} BigEndianIsOnto(b: Bytes)
    ensures FromBigEndian(b) < Pow256(|b|)
    ensures ToBigEndian(FromBigEndian(b), |b|) == b
  {
    if b != [] {
      var front := b[..|b| - 1];
      BigEndianIsOnto(front);
      assert b == front + [b[|b| - 1]];
    }
  }

  /** The most significant byte comes first. */
  lemma {:induction false} BigEndianByte(n: nat, width: nat, k: nat)
    requires n < Pow256(width) && k < width
    ensures ToBigEndian(n, width)[k] as nat == n / Pow256(width - 1 - k) % 256
  {
    if k < width - 1 {
      BigEndianByte(n / 256, width - 1, k);
      DividedTwice(n, Pow256(width - 2 - k));
    }
  }

  lemma DividedTwice(n: nat, d: nat)
    requires d > 0
    ensures n / 256 / d == n / (256 * d)
  {
    var q, rest := n / 256 / d, n / 256 % d;
    assert n == 256 * (q * d + rest) + n % 256;
    assert 256 * rest + n % 256 < 256 * d;
    assert n == (256 * d) * q + (256 * rest + n % 256);
    Quotient(n, 256 * d, q, 256 * rest + n % 256);
  }

  lemma Quotient(n: nat, d: nat, q: nat, rest: nat)
    requires rest < d && n == d * q + rest
    ensures n / d == q
  {
    var k := n / d;
    assert n == d * k + n % d;
    assert k < q ==> d * (k + 1) <= d * q;
    assert q < k ==> d * (q + 1) <= d * k;
  }

  /** The file, byte by byte. */
  lemma FramedBytes(meta: Bytes, data: Bytes, k: nat)
    requires |meta| <= U64_MAX && k < LEN_BYTES + |meta| + |data|
    ensures Pow256(7) == 0x100_0000_0000_0000
    ensures var b := Frame(meta, data)[k];
            if k < 8 then b as nat == |meta| / Pow256(7 - k) % 256
            else if k < 8 + |meta| then b == meta[k - 8]
            else b == data[k - 8 - |meta|]
  {
    U64IsEightBytes();
    if k < LEN_BYTES {
      BigEndianByte(|meta|, LEN_BYTES, k);
    }
  }

  lemma U64IsEightBytes()
    ensures Pow256(LEN_BYTES) == U64_MAX + 1
  {
    assert Pow256(2) == 0x1_0000;
    assert Pow256(4) == 0x1_0000_0000;
    assert Pow256(6) == 0x1_0000_0000_0000;
  }

  function Frame(meta: Bytes, data: Bytes): (file: Bytes)
    requires |meta| <= U64_MAX
    ensures |file| == LEN_BYTES + |meta| + |data|
  {
    U64IsEightBytes();
    ToBigEndian(|meta|, LEN_BYTES) + meta + data
  }

  /** The leading length, and the bytes after it. */
  function SplitMetaLen(file: Bytes, usizeMax: nat): Result<(nat, Bytes)> {
    if |file| < LEN_BYTES then
      Err(Error.Framing)
    else
      var len := FromBigEndian(file[..LEN_BYTES]);
      if len > usizeMax then Err(Error.Framing) else Ok((len, file[LEN_BYTES..]))
  }

  /** The two halves of a snapshot file, as `load` takes them apart. */
  function Unframe(file: Bytes, usizeMax: nat): Result<(Bytes, Bytes)> {
    match SplitMetaLen(file, usizeMax)
    case Err(e) => Err(e)
    case Ok((len, rest)) =>
      if |rest| < len then Err(Error.Framing) else Ok((rest[..len], rest[len..]))
  }

  lemma Concatenated(a: Bytes, b: Bytes, c: Bytes)
    ensures (a + b + c)[..|a|] == a && (a + b + c)[|a|..] == b + c
    ensures (b + c)[..|b|] == b && (b + c)[|b|..] == c
  {
  }

  /** Both halves come back unchanged, whatever bytes they hold. */
  lemma FrameRoundTrips(meta: Bytes, data: Bytes, usizeMax: nat)
    requires |meta| <= U64_MAX && |meta| <= usizeMax
    ensures Unframe(Frame(meta, data), usizeMax) == Ok((meta, data))
  {
    U64IsEightBytes();
    BigEndianReadsBack(|meta|, LEN_BYTES);
    Concatenated(ToBigEndian(|meta|, LEN_BYTES), meta, data);
  }

  /** Reading and writing are inverse both ways: a file reads as two halves exactly when it is those
      halves framed. */
  lemma UnframeInvertsFrame(file: Bytes, meta: Bytes, data: Bytes, usizeMax: nat)
    requires |meta| <= U64_MAX && |meta| <= usizeMax
    ensures Unframe(file, usizeMax) == Ok((meta, data)) <==> file == Frame(meta, data)
  {
    if file == Frame(meta, data) {
      FrameRoundTrips(meta, data, usizeMax);
    }
    if Unframe(file, usizeMax) == Ok((meta, data)) {
      var head, rest := file[..LEN_BYTES], file[LEN_BYTES..];
      BigEndianIsOnto(head);
      assert FromBigEndian(head) == |meta|;
      assert rest == rest[..|meta|] + rest[|meta|..];
      assert file == head + rest;
    }
  }

  lemma UnframedIsFramed(file: Bytes, meta: Bytes, data: Bytes, usizeMax: nat)
    requires Unframe(file, usizeMax) == Ok((meta, data))
    ensures |meta| <= U64_MAX && |meta| <= usizeMax && file == Frame(meta, data)
  {
    U64IsEightBytes();
    BigEndianIsOnto(file[..LEN_BYTES]);
    UnframeInvertsFrame(file, meta, data, usizeMax);
  }

  lemma FrameIsInjective(meta: Bytes, data: Bytes, meta': Bytes, data': Bytes)
    requires |meta| <= U64_MAX && |meta'| <= U64_MAX
    requires Frame(meta, data) == Frame(meta', data')
    ensures meta == meta' && data == data'
  {
    FrameRoundTrips(meta, data, U64_MAX);
    FrameRoundTrips(meta', data', U64_MAX);
  }

  /** A file cut short is refused exactly when the cut falls inside the length or the metadata. State
      cut short is not detected: it runs to the end of the file. */
  lemma CutFileIsRefused(meta: Bytes, data: Bytes, cut: nat, usizeMax: nat)
    requires |meta| <= U64_MAX && |meta| <= usizeMax
    requires cut <= LEN_BYTES + |meta| + |data|
    ensures Unframe(Frame(meta, data)[..cut], usizeMax).Err? <==> cut < LEN_BYTES + |meta|
    ensures cut >= LEN_BYTES + |meta| ==>
              Unframe(Frame(meta, data)[..cut], usizeMax)
              == Ok((meta, data[..cut - LEN_BYTES - |meta|]))
  {
    U64IsEightBytes();
    BigEndianReadsBack(|meta|, LEN_BYTES);
    var file := Frame(meta, data);
    if cut >= LEN_BYTES + |meta| {
      var kept := data[..cut - LEN_BYTES - |meta|];
      assert file[..cut] == Frame(meta, kept);
      FrameRoundTrips(meta, kept, usizeMax);
    } else if cut >= LEN_BYTES {
      assert file[..cut][..LEN_BYTES] == ToBigEndian(|meta|, LEN_BYTES);
    }
  }
}
