/** The packed dead-row bitmap of a search cell: the client's decoder and the server's packer. */
module Bitmap {

  /** Whether a local row is dead: bit `row % 8`, least significant first, of byte `row / 8`.
      Rows beyond the buffer, and negative rows, are live. */
  predicate IsDead(dead: seq<bv8>, row: int) {
    if row < 0 then false
    else
      var b := row / 8;
      if b >= |dead| then false
      else dead[b] & ((1 as bv8) << (row % 8)) != 0
  }

  /** The lowest `bits` bits of byte `b` of the bitmap of `rows`. */
  function PackByte(rows: set<nat>, b: nat, bits: nat): bv8
    requires bits <= 8
  {
    if bits == 0 then 0
    else
      var low := PackByte(rows, b, bits - 1);
      if 8 * b + (bits - 1) in rows then low | ((1 as bv8) << (bits - 1)) else low
  }

  /** The server's packing of a set of dead rows into `length` bytes. */
  function Pack(rows: set<nat>, length: nat): (dead: seq<bv8>) {
    seq(length, b requires 0 <= b => PackByte(rows, b, 8))
  }

  ghost predicate Covers(rows: set<nat>, length: nat) {
    forall r :: r in rows ==> r < 8 * length
  }

  lemma BitOfOr(low: bv8, j: nat, k: nat)
    requires j < 8 && k < 8
    ensures ((low | ((1 as bv8) << j)) & ((1 as bv8) << k) != 0)
       <==> (j == k || low & ((1 as bv8) << k) != 0)
  {
  }

  lemma {:induction false} PackedBit(rows: set<nat>, b: nat, bits: nat, k: nat)
    requires bits <= 8 && k < 8
    ensures (PackByte(rows, b, bits) & ((1 as bv8) << k) != 0) <==> (k < bits && 8 * b + k in rows)
  {
    if bits > 0 {
      PackedBit(rows, b, bits - 1, k);
      BitOfOr(PackByte(rows, b, bits - 1), bits - 1, k);
    }
  }

  lemma DecodeInside(rows: set<nat>, length: nat, row: nat)
    requires row < 8 * length
    ensures IsDead(Pack(rows, length), row) <==> row in rows
  {
    PackedBit(rows, row / 8, 8, row % 8);
  }

  /** The client's decoder agrees with the server's packer on every row, negative ones included,
      exactly when the buffer reaches the highest dead row. */
  lemma BitmapAgreement(rows: set<nat>, length: nat)
    ensures Covers(rows, length)
       <==> forall row: int :: IsDead(Pack(rows, length), row) <==> row >= 0 && row in rows
  {
    forall row: int | 0 <= row < 8 * length
      ensures IsDead(Pack(rows, length), row) <==> row in rows
    {
      DecodeInside(rows, length, row);
    }
    if !Covers(rows, length) {
      var r :| r in rows && r >= 8 * length;
      assert !IsDead(Pack(rows, length), r);
    }
  }
}
