/** The bytes a validator signs for a snapshot, and why they determine every field. */
module SigningData {
  import opened Arithmetic
  import opened Wrappers
  import opened Collections
  import opened ByteStrings
  import opened AppendOnlyChain

  const U64_BYTES: nat := 8
  const DIGEST_BYTES: nat := 64

  /** Powers of 256. */
  function Base(width: nat): (b: nat)
    ensures b > 0
  {
    if width == 0 then 1 else 256 * Base(width - 1)
  }

  datatype Fields = Fields(
    sequence: nat, timestamp: nat, previousDigest: Digest, stateRoot: Digest, transactions: seq<Digest>, cycle: nat)

  /** 64-bit numbers and 64-byte digests. */
  ghost predicate WellFormed(f: Fields) {
    && f.sequence < Base(U64_BYTES) && f.timestamp < Base(U64_BYTES) && f.cycle < Base(U64_BYTES)
    && |f.previousDigest| == |f.stateRoot| == DIGEST_BYTES
    && forall i :: 0 <= i < |f.transactions| ==> |f.transactions[i]| == DIGEST_BYTES
  }

  /** `to_le_bytes`: least significant byte first. */
  function LittleEndian(n: nat, width: nat): (b: Bytes)
    ensures |b| == width
  {
    if width == 0 then [] else [(n % 256) as byte] + LittleEndian(n / 256, width - 1)
  }

  function FromLittleEndian(b: Bytes): (n: nat)
    ensures n < Base(|b|)
  {
    if b == [] then 0 else b[0] as nat + 256 * FromLittleEndian(b[1..])
  }

  function Concat(ds: seq<Digest>): Bytes {
    if ds == [] then [] else Concat(ds[..|ds| - 1]) + ds[|ds| - 1]
  }

  lemma NoDigests()
    ensures Concat([]) == []
  {
  }

  lemma ConcatOneMore(ds: seq<Digest>, i: nat)
    requires i < |ds|
    ensures Concat(ds[..i + 1]) == Concat(ds[..i]) + ds[i]
  {
    assert ds[..i + 1][..i] == ds[..i];
  }

  function Encode(f: Fields): Bytes {
    LittleEndian(f.sequence, U64_BYTES) + LittleEndian(f.timestamp, U64_BYTES) + f.previousDigest + f.stateRoot +
    Concat(f.transactions) + LittleEndian(f.cycle, U64_BYTES)
  }

  /** Bytes that are not transaction digests. */
  const FIXED_BYTES: nat := 3 * U64_BYTES + 2 * DIGEST_BYTES

  function Chunks(b: Bytes): seq<Digest>
    requires |b| % DIGEST_BYTES == 0
  {
    if b == [] then [] else Chunks(b[..|b| - DIGEST_BYTES]) + [b[|b| - DIGEST_BYTES..]]
  }

  function Decode(b: Bytes): Option<Fields> {
    if |b| < FIXED_BYTES || (|b| - FIXED_BYTES) % DIGEST_BYTES != 0 then None
    else Some(Fields(FromLittleEndian(b[..8]), FromLittleEndian(b[8..16]), b[16..80], b[80..144],
                     Chunks(b[144..|b| - 8]), FromLittleEndian(b[|b| - 8..])))
  }

  // ---------- Numbers ----------

  lemma {:induction false} NumberRoundTrip(n: nat, width: nat)
    requires n < Base(width)
    ensures FromLittleEndian(LittleEndian(n, width)) == n
  {
    if width > 0 {
      NumberRoundTrip(n / 256, width - 1);
      assert LittleEndian(n, width)[1..] == LittleEndian(n / 256, width - 1);
    }
  }

  lemma {:induction false} BytesRoundTrip(b: Bytes)
    ensures LittleEndian(FromLittleEndian(b), |b|) == b
  {
    if b != [] {
      BytesRoundTrip(b[1..]);
      var n := FromLittleEndian(b);
      assert n % 256 == b[0] as nat && n / 256 == FromLittleEndian(b[1..]);
      assert b == [b[0]] + b[1..];
    }
  }

  /** Byte `i` of a number is its digit of weight 256 to the `i`. */
  lemma {:induction false} LittleEndianByte(n: nat, width: nat, i: nat)
    requires i < width
    ensures LittleEndian(n, width)[i] as nat == n / Base(i) % 256
    decreases i
  {
    if i > 0 {
      LittleEndianByte(n / 256, width - 1, i - 1);
      DivideTwice(n, 256, Base(i - 1));
    }
  }

  lemma WordSize()
    ensures Base(U64_BYTES) == 0x1_0000_0000_0000_0000
  {
  }

  // ---------- Digest lists ----------

  ghost predicate AllDigests(ds: seq<Digest>) {
    forall i :: 0 <= i < |ds| ==> |ds[i]| == DIGEST_BYTES
  }

  lemma {:induction false} ChunksOfConcat(ds: seq<Digest>)
    requires AllDigests(ds)
    ensures |Concat(ds)| == DIGEST_BYTES * |ds| && Chunks(Concat(ds)) == ds
  {
    if ds != [] {
      var init, last := ds[..|ds| - 1], ds[|ds| - 1];
      ChunksOfConcat(init);
      var b := Concat(ds);
      assert b[..|b| - DIGEST_BYTES] == Concat(init) && b[|b| - DIGEST_BYTES..] == last;
      assert ds == init + [last];
    }
  }

  lemma {:induction false} ConcatOfChunks(b: Bytes)
    requires |b| % DIGEST_BYTES == 0
    ensures AllDigests(Chunks(b)) && Concat(Chunks(b)) == b
  {
    if b != [] {
      var init := b[..|b| - DIGEST_BYTES];
      ConcatOfChunks(init);
      assert Chunks(b)[..|Chunks(b)| - 1] == Chunks(init);
      assert b == init + b[|b| - DIGEST_BYTES..];
    }
  }

  // ---------- The whole message ----------

  lemma PartsOf(p: Bytes, q: Bytes, r: Bytes, s: Bytes, t: Bytes, u: Bytes)
    requires |p| == |q| == |u| == U64_BYTES && |r| == |s| == DIGEST_BYTES
    ensures var b := p + q + r + s + t + u;
            && |b| == FIXED_BYTES + |t|
            && b[..8] == p && b[8..16] == q && b[16..80] == r && b[80..144] == s
            && b[144..|b| - 8] == t && b[|b| - 8..] == u
  {
  }

  lemma EncodeParts(f: Fields)
    requires WellFormed(f)
    ensures var b := Encode(f);
            && |b| == FIXED_BYTES + DIGEST_BYTES * |f.transactions|
            && b[..8] == LittleEndian(f.sequence, U64_BYTES) && b[8..16] == LittleEndian(f.timestamp, U64_BYTES)
            && b[16..80] == f.previousDigest && b[80..144] == f.stateRoot
            && b[144..|b| - 8] == Concat(f.transactions) && b[|b| - 8..] == LittleEndian(f.cycle, U64_BYTES)
  {
    hide LittleEndian, Concat, Chunks, Base;
    ChunksOfConcat(f.transactions);
    PartsOf(LittleEndian(f.sequence, U64_BYTES), LittleEndian(f.timestamp, U64_BYTES), f.previousDigest, f.stateRoot,
            Concat(f.transactions), LittleEndian(f.cycle, U64_BYTES));
  }

  /** All six fields can be read back from the signed bytes. */
  lemma DecodeEncode(f: Fields)
    requires WellFormed(f)
    ensures Decode(Encode(f)) == Some(f)
  {
    hide LittleEndian, FromLittleEndian, Concat, Chunks, Encode;
    EncodeParts(f);
    ChunksOfConcat(f.transactions);
    NumberRoundTrip(f.sequence, U64_BYTES);
    NumberRoundTrip(f.timestamp, U64_BYTES);
    NumberRoundTrip(f.cycle, U64_BYTES);
  }

  /** No two different snapshots have the same signed bytes. */
  lemma EncodeInjective(f: Fields, g: Fields)
    requires WellFormed(f) && WellFormed(g) && Encode(f) == Encode(g)
    ensures f == g
  {
    DecodeEncode(f);
    DecodeEncode(g);
  }

  lemma SplitMessage(b: Bytes)
    requires |b| >= FIXED_BYTES
    ensures b[..8] + b[8..16] + b[16..80] + b[80..144] + b[144..|b| - 8] + b[|b| - 8..] == b
  {
  }

  /** Every message of the right length is the signing data of the fields it decodes to. */
  lemma EncodeDecode(b: Bytes)
    requires Decode(b).Some?
    ensures WellFormed(Decode(b).value) && Encode(Decode(b).value) == b
  {
    hide LittleEndian, FromLittleEndian, Chunks, Concat;
    ConcatOfChunks(b[144..|b| - 8]);
    BytesRoundTrip(b[..8]);
    BytesRoundTrip(b[8..16]);
    BytesRoundTrip(b[|b| - 8..]);
    SplitMessage(b);
  }

  /** The buffer is extended field by field. */
  method PrepareSnapshotSigningData(f: Fields) returns (data: Bytes)
    ensures data == Encode(f)
    ensures WellFormed(f) ==> Decode(data) == Some(f)
  {
    hide LittleEndian, Concat, Decode, WellFormed;
    data := [];
    NoDigests();
    data := data + LittleEndian(f.sequence, U64_BYTES);
    data := data + LittleEndian(f.timestamp, U64_BYTES);
    data := data + f.previousDigest;
    data := data + f.stateRoot;
    ghost var header := data;
    var i := 0;
    while i < |f.transactions|
      invariant i <= |f.transactions|
      invariant data == header + Concat(f.transactions[..i])
    {
      ConcatOneMore(f.transactions, i);
      data := data + f.transactions[i];
      i := i + 1;
    }
    TakeAll(f.transactions);
    data := data + LittleEndian(f.cycle, U64_BYTES);
    if WellFormed(f) { DecodeEncode(f); }
  }
}
