/** Event ids: slot, transaction, instruction and inner index packed into 64 bits with shifts and ors. */
module EventId {

  const TWO_64: nat := 0x1_0000_0000_0000_0000
  const TWO_63: nat := 0x8000_0000_0000_0000

  // ----- uint64 shifts and or -----

  function Pow2(k: nat): (p: nat)
    ensures p > 0
  {
    if k == 0 then 1 else 2 * Pow2(k - 1)
  }

  function ShiftLeft(x: nat, k: nat): nat {
    (x * Pow2(k)) % TWO_64
  }

  function Or(x: nat, y: nat): nat
    decreases x + y
  {
    if x == 0 && y == 0 then 0
    else 2 * Or(x / 2, y / 2) + if x % 2 == 1 || y % 2 == 1 then 1 else 0
  }

  // Or-ing a number into zero bits adds it.
  lemma {:induction false} OrIsSum(high: nat, low: nat, k: nat)
    requires low < Pow2(k)
    ensures Or(high * Pow2(k), low) == high * Pow2(k) + low
  {
    if k == 0 {
      OrZero(high);
    } else {
      var h := high * Pow2(k - 1);
      assert high * Pow2(k) == 2 * h;
      OrIsSum(high, low / 2, k - 1);
    }
  }

  lemma {:induction false} OrZero(x: nat)
    ensures Or(x, 0) == x
  {
    if x > 0 {
      OrZero(x / 2);
    }
  }

  lemma {:induction false} OrBelow(x: nat, y: nat, k: nat)
    requires x < Pow2(k) && y < Pow2(k)
    ensures Or(x, y) < Pow2(k)
  {
    if k > 0 {
      OrBelow(x / 2, y / 2, k - 1);
    }
  }

  // The powers of two that occur.
  lemma Powers()
    ensures Pow2(8) == 0x100 && Pow2(16) == 0x1_0000 && Pow2(32) == 0x1_0000_0000 && Pow2(64) == TWO_64
  {
    assert Pow2(4) == 16;
    assert Pow2(8) == 0x100;
    assert Pow2(12) == 0x1000;
    assert Pow2(16) == 0x1_0000;
    DoubledPower(16);
    DoubledPower(32);
  }

  lemma DoubledPower(k: nat)
    ensures Pow2(k + k) == Pow2(k) * Pow2(k)
  {
    PowerSum(k, k);
  }

  lemma {:induction false} PowerSum(x: nat, y: nat)
    ensures Pow2(x + y) == Pow2(x) * Pow2(y)
  {
    if y > 0 {
      PowerSum(x, y - 1);
      var p, q := Pow2(x), Pow2(y - 1);
      assert Pow2(x + y) == 2 * Pow2(x + y - 1);
      Doubled(p, q);
    }
  }

  lemma Doubled(p: nat, q: nat)
    ensures p * (2 * q) == 2 * (p * q)
  {
  }

  // ----- Packing -----

  datatype Fields = Fields(slot: nat, tx: nat, ix: nat, inner: nat)
  {
    predicate Uint64() { slot < TWO_64 && tx < TWO_64 && ix < TWO_64 && inner < TWO_64 }

    predicate InRange() { slot < 0x1_0000_0000 && tx < 0x1_0000 && ix < 0x100 && inner < 0x100 }

    // Lexicographic order.
    predicate Less(g: Fields) {
      || slot < g.slot
      || (slot == g.slot && tx < g.tx)
      || (slot == g.slot && tx == g.tx && ix < g.ix)
      || (slot == g.slot && tx == g.tx && ix == g.ix && inner < g.inner)
    }
  }

  function Pack(f: Fields): nat {
    Or(Or(Or(ShiftLeft(f.slot, 32), ShiftLeft(f.tx, 16)), ShiftLeft(f.ix, 8)), f.inner)
  }

  function Unpack(id: nat): Fields {
    Fields(id / 0x1_0000_0000, (id / 0x1_0000) % 0x1_0000, (id / 0x100) % 0x100, id % 0x100)
  }

  lemma ShiftIsProduct(x: nat, k: nat, p: nat)
    requires Pow2(k) == p && x * p < TWO_64
    ensures ShiftLeft(x, k) == x * p
  {
  }

  lemma OrAtBit(high: nat, low: nat, k: nat, p: nat, word: nat)
    requires Pow2(k) == p && low < p && word == high * p
    ensures Or(word, low) == word + low
  {
    OrIsSum(high, low, k);
  }

  lemma PackIsSum(f: Fields)
    requires f.InRange()
    ensures Pack(f) == f.slot * 0x1_0000_0000 + f.tx * 0x1_0000 + f.ix * 0x100 + f.inner
  {
    Powers();
    hide Pow2;
    ShiftIsProduct(f.slot, 32, 0x1_0000_0000);
    ShiftIsProduct(f.tx, 16, 0x1_0000);
    ShiftIsProduct(f.ix, 8, 0x100);
    var x := f.slot * 0x1_0000_0000;
    var y := x + f.tx * 0x1_0000;
    var z := y + f.ix * 0x100;
    OrAtBit(f.slot, f.tx * 0x1_0000, 32, 0x1_0000_0000, x);
    OrAtBit(f.slot * 0x1_0000 + f.tx, f.ix * 0x100, 16, 0x1_0000, y);
    OrAtBit(f.slot * 0x100_0000 + f.tx * 0x100 + f.ix, f.inner, 8, 0x100, z);
    hide Or, ShiftLeft;
  }

  lemma BytesOf(id: nat)
    ensures id == (id / 0x1_0000_0000) * 0x1_0000_0000 + ((id / 0x1_0000) % 0x1_0000) * 0x1_0000
                  + ((id / 0x100) % 0x100) * 0x100 + id % 0x100
  {
    var q8, q16 := id / 0x100, id / 0x1_0000;
    assert q16 == q8 / 0x100;
    assert id / 0x1_0000_0000 == q16 / 0x1_0000;
  }

  // Packing what was unpacked gives every uint64 back.
  lemma PackUnpack(id: nat)
    requires id < TWO_64
    ensures Unpack(id).InRange() && Pack(Unpack(id)) == id
  {
    BytesOf(id);
    PackIsSum(Unpack(id));
  }

  lemma UnpackSum(f: Fields, id: nat)
    requires f.InRange() && id == f.slot * 0x1_0000_0000 + f.tx * 0x1_0000 + f.ix * 0x100 + f.inner
    ensures Unpack(id) == f
  {
    assert id / 0x100 == f.slot * 0x100_0000 + f.tx * 0x100 + f.ix;
    assert id / 0x1_0000 == f.slot * 0x1_0000 + f.tx;
  }

  lemma PackBelow(f: Fields)
    requires f.Uint64()
    ensures Pack(f) < TWO_64
  {
    Powers();
    var x := Or(ShiftLeft(f.slot, 32), ShiftLeft(f.tx, 16));
    OrBelow(ShiftLeft(f.slot, 32), ShiftLeft(f.tx, 16), 64);
    OrBelow(x, ShiftLeft(f.ix, 8), 64);
    OrBelow(Or(x, ShiftLeft(f.ix, 8)), f.inner, 64);
  }

  // Unpacking what was packed gives the fields back exactly when they are in range.
  lemma UnpackPack(f: Fields)
    requires f.Uint64()
    ensures Unpack(Pack(f)) == f <==> f.InRange()
  {
    PackBelow(f);
    if f.InRange() {
      PackIsSum(f);
      UnpackSum(f, Pack(f));
    } else {
      PackUnpack(Pack(f));
    }
  }

  // On in-range fields the numeric order of ids is the lexicographic order of the fields.
  lemma OrderIsLexicographic(f: Fields, g: Fields)
    requires f.InRange() && g.InRange()
    ensures Pack(f) < Pack(g) <==> f.Less(g)
  {
    PackIsSum(f);
    PackIsSum(g);
  }

  // ----- The int64 stored as last_event_id -----

  function Int64(id: nat): int
    requires id < TWO_64
  {
    if id < TWO_63 then id else id - TWO_64
  }

  // The cast keeps the order of two ids exactly when their slots are on the same side of 2^31.
  lemma CastKeepsOrder(f: Fields, g: Fields)
    requires f.InRange() && g.InRange() && f.Less(g)
    ensures Pack(f) < TWO_64 && Pack(g) < TWO_64
    ensures Int64(Pack(f)) < Int64(Pack(g)) <==> (f.slot < 0x8000_0000 <==> g.slot < 0x8000_0000)
  {
    PackIsSum(f);
    PackIsSum(g);
  }

  // Below slot 2^31 the stored id still carries its slot in the top 32 bits, as the balance watermark needs.
  lemma CastCarriesSlot(f: Fields)
    requires f.InRange()
    ensures Pack(f) < TWO_64
    ensures Int64(Pack(f)) / 0x1_0000_0000 == f.slot <==> f.slot < 0x8000_0000
  {
    PackIsSum(f);
  }
}
