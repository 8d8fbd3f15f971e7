/**
 * The duplicate-detection fingerprint: 32-bit FNV-1a (section 2 of the IETF
 * draft "The FNV Non-Cryptographic Hash Algorithm", draft-eastlake-fnv) over
 * the API receipt's fields concatenated without separators.
 */
module Fingerprint {
  import opened Text
  import opened Objects

  const OffsetBasis: bv32 := 2166136261
  const Prime: bv32 := 16777619

  /** One FNV-1a step: xor the byte in, then multiply by the prime modulo 2^32. */
  function Step(h: bv32, b: byte): bv32
  {
    (h ^ (b as bv32)) * Prime
  }

  /** FNV-1a continued from state `h` over the bytes of `s`, first to last. */
  function Fold(h: bv32, s: Bytes): bv32
  {
    if s == [] then h else Step(Fold(h, s[..|s| - 1]), s[|s| - 1])
  }

  /** The 32-bit FNV-1a digest of `s`. */
  function Fnv1a(s: Bytes): bv32
  {
    Fold(OffsetBasis, s)
  }

  /** The digest can be computed piecewise: hashing `b` continues from the state `a` left. */
  lemma {:induction false} FoldAppend(h: bv32, a: Bytes, b: Bytes)
    ensures Fold(h, a + b) == Fold(Fold(h, a), b)
  {
    if b == [] {
      assert a + b == a;
    } else {
      var b' := b[..|b| - 1];
      assert (a + b)[..|a + b| - 1] == a + b';
      FoldAppend(h, a, b');
    }
  }

  /** Hashing one more byte is one more step. */
  lemma FoldSnoc(h: bv32, s: Bytes, b: byte)
    ensures Fold(h, s + [b]) == Step(Fold(h, s), b)
  {
    assert (s + [b])[..|s|] == s;
  }

  /** Test vectors of 32-bit FNV-1a: "", "a" and "foobar". */
  lemma KnownDigests()
    ensures Fnv1a([]) == 0x811c9dc5
    ensures Fnv1a(Ascii("a")) == 0xe40c292c
    ensures Fnv1a(Ascii("foobar")) == 0xbf9cf968
  {
    var f, o, b, a, r := 'f' as byte, 'o' as byte, 'b' as byte, 'a' as byte, 'r' as byte;
    assert Ascii("a") == [] + [a];
    FoldSnoc(OffsetBasis, [], a);
    assert Step(OffsetBasis, a) == 0xe40c292c;

    assert Ascii("foobar") == [f, o, o, b, a] + [r];
    assert [f, o, o, b, a] == [f, o, o, b] + [a];
    assert [f, o, o, b] == [f, o, o] + [b];
    assert [f, o, o] == [f, o] + [o];
    assert [f, o] == [f] + [o];
    assert [f] == [] + [f];
    FoldSnoc(OffsetBasis, [], f);
    FoldSnoc(OffsetBasis, [f], o);
    FoldSnoc(OffsetBasis, [f, o], o);
    FoldSnoc(OffsetBasis, [f, o, o], b);
    FoldSnoc(OffsetBasis, [f, o, o, b], a);
    FoldSnoc(OffsetBasis, [f, o, o, b, a], r);
    FoobarSteps();
  }

  /** The FNV-1a states after each byte of "foobar". */
  lemma FoobarSteps()
    ensures Step(OffsetBasis, 'f' as byte) == 0xe30c2799
    ensures Step(0xe30c2799, 'o' as byte) == 0x6222e842
    ensures Step(0x6222e842, 'o' as byte) == 0xa9f37ed7
    ensures Step(0xa9f37ed7, 'b' as byte) == 0x3f5076ef
    ensures Step(0x3f5076ef, 'a' as byte) == 0x39aaa18a
    ensures Step(0x39aaa18a, 'r' as byte) == 0xbf9cf968
  {
  }

  /** `hash`: FNV-1a over the bytes of a string. */
  method Hash(s: Bytes) returns (h: bv32)
    ensures h == Fnv1a(s)
  {
    h := OffsetBasis;
    var i := 0;
    while i < |s|
      invariant 0 <= i <= |s|
      invariant h == Fold(OffsetBasis, s[..i])
    {
      assert s[..i + 1][..i] == s[..i];
      h := Step(h, s[i]);
      i := i + 1;
    }
    assert s[..i] == s;
  }

  /** What one item adds to the hash input: its description, then its price. */
  function ItemText(item: APIItem): Bytes
  {
    item.ShortDescription + item.Price
  }

  /** Each item's description followed by its price, in item order. */
  function ItemsText(items: seq<APIItem>): Bytes
  {
    if items == [] then [] else ItemsText(items[..|items| - 1]) + ItemText(items[|items| - 1])
  }

  /** The string `generateHash` hashes: retailer, date, time, total, then the items. */
  function HashInput(api: APIReceipt): Bytes
  {
    api.Retailer + api.PurchaseDate + api.PurchaseTime + api.Total + ItemsText(api.Items)
  }

  /** A receipt's fingerprint is the digest of its hash input. */
  function Of(api: APIReceipt): bv32
  {
    Fnv1a(HashInput(api))
  }

  /** `generateHash`: builds the hash input by appending field by field, then hashes it. */
  method GenerateHash(api: APIReceipt) returns (h: bv32)
    ensures h == Fnv1a(HashInput(api))
  {
    var str: Bytes := [];
    str := str + api.Retailer;
    str := str + api.PurchaseDate;
    str := str + api.PurchaseTime;
    str := str + api.Total;
    var head := str;
    var i := 0;
    while i < |api.Items|
      invariant 0 <= i <= |api.Items|
      invariant str == head + ItemsText(api.Items[..i])
    {
      assert api.Items[..i + 1][..i] == api.Items[..i];
      str := str + api.Items[i].ShortDescription;
      str := str + api.Items[i].Price;
      i := i + 1;
    }
    assert api.Items[..i] == api.Items;
    assert head == api.Retailer + api.PurchaseDate + api.PurchaseTime + api.Total;
    h := Hash(str);
  }

  /** The items' text is the items' texts one after another. */
  lemma {:induction false} ItemsTextAppend(xs: seq<APIItem>, ys: seq<APIItem>)
    ensures ItemsText(xs + ys) == ItemsText(xs) + ItemsText(ys)
  {
    if ys == [] {
      assert xs + ys == xs;
    } else {
      var ys', last := ys[..|ys| - 1], ys[|ys| - 1];
      var zs := xs + ys;
      assert zs[..|zs| - 1] == xs + ys' && zs[|zs| - 1] == last;
      ItemsTextAppend(xs, ys');
      calc {
        ItemsText(zs);
        ItemsText(xs + ys') + ItemText(last);
        (ItemsText(xs) + ItemsText(ys')) + ItemText(last);
        ItemsText(xs) + (ItemsText(ys') + ItemText(last));
        ItemsText(xs) + ItemsText(ys);
      }
    }
  }

  /**
   * Nothing separates the fields: moving bytes across the boundary between
   * the retailer and the date leaves the fingerprint unchanged.
   */
  lemma RetailerDateBoundary(a: APIReceipt, b: APIReceipt)
    requires a.Retailer + a.PurchaseDate == b.Retailer + b.PurchaseDate
    requires a.PurchaseTime == b.PurchaseTime && a.Total == b.Total && a.Items == b.Items
    ensures Of(a) == Of(b)
  {
    assert HashInput(a) == (a.Retailer + a.PurchaseDate) + a.PurchaseTime + a.Total + ItemsText(a.Items);
    assert HashInput(b) == (b.Retailer + b.PurchaseDate) + b.PurchaseTime + b.Total + ItemsText(b.Items);
  }

  /**
   * Likewise between an item's description and its price: the fingerprint
   * sees only the concatenation of each item's two fields.
   */
  lemma {:induction false} ItemBoundary(a: APIReceipt, b: APIReceipt)
    requires a.Retailer == b.Retailer && a.PurchaseDate == b.PurchaseDate
    requires a.PurchaseTime == b.PurchaseTime && a.Total == b.Total
    requires |a.Items| == |b.Items|
    requires forall i :: 0 <= i < |a.Items| ==>
      a.Items[i].ShortDescription + a.Items[i].Price == b.Items[i].ShortDescription + b.Items[i].Price
    ensures Of(a) == Of(b)
  {
    SameItemsText(a.Items, b.Items);
  }

  lemma {:induction false} SameItemsText(xs: seq<APIItem>, ys: seq<APIItem>)
    requires |xs| == |ys|
    requires forall i :: 0 <= i < |xs| ==>
      xs[i].ShortDescription + xs[i].Price == ys[i].ShortDescription + ys[i].Price
    ensures ItemsText(xs) == ItemsText(ys)
  {
    if xs != [] {
      var n := |xs| - 1;
      SameItemsText(xs[..n], ys[..n]);
      assert ItemText(xs[n]) == ItemText(ys[n]);
    }
  }

  /** A concrete collision: retailer "AB" with date "C" against retailer "A" with date "BC". */
  lemma ShiftedFieldsCollide()
    ensures
      var a := APIReceipt(Ascii("AB"), Ascii("C"), [], [], []);
      var b := APIReceipt(Ascii("A"), Ascii("BC"), [], [], []);
      a != b && Of(a) == Of(b)
  {
    var a := APIReceipt(Ascii("AB"), Ascii("C"), [], [], []);
    var b := APIReceipt(Ascii("A"), Ascii("BC"), [], [], []);
    assert a.Retailer != b.Retailer by {
      assert |a.Retailer| != |b.Retailer|;
    }
    assert Ascii("AB") + Ascii("C") == Ascii("A") + Ascii("BC");
    RetailerDateBoundary(a, b);
  }
}
