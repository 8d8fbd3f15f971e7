/**
 * The scoring engine of src/handlers/receipts/process.go: seven additive
 * rules over a normalized receipt, each given here as its own function, and
 * `CalculatePoints`, the loop implementation, proved equal to their sum.
 */
module Scoring {
  import opened Text
  import opened Objects

  /** `isAlphanumeric`: the rune is an ASCII letter or digit. */
  predicate IsAlphanumeric(r: int): (b: bool)
    ensures b ==> 0 <= r < 128
  {
    ('a' as int <= r <= 'z' as int) || ('A' as int <= r <= 'Z' as int) || ('0' as int <= r <= '9' as int)
  }

  /** Go's `%` on integers: truncates toward zero, so the remainder takes the sign of the dividend. */
  function GoRem(a: int, b: int): (r: int)
    requires b > 0
    ensures a >= 0 ==> 0 <= r < b
    ensures a < 0 ==> -b < r <= 0
    ensures a == b * (if a >= 0 then a / b else -((-a) / b)) + r
  {
    if a >= 0 then a % b else -((-a) % b)
  }

  /** Go's and Dafny's remainders agree on non-negative dividends, and on whether a number is a multiple. */
  lemma GoRemFacts(a: int)
    ensures a >= 0 ==> GoRem(a, 25) == a % 25 && GoRem(a, 2) == a % 2
    ensures GoRem(a, 25) == 0 <==> a % 25 == 0
    ensures GoRem(a, 2) == 0 <==> a % 2 == 0
    ensures GoRem(a, 2) == 1 <==> a > 0 && a % 2 == 1
  {
  }

  // Rule 1

  /** The number of alphanumeric bytes of `s`. */
  function AlphanumericCount(s: Bytes): (n: nat)
    ensures n <= |s|
  {
    if s == [] then 0
    else AlphanumericCount(s[..|s| - 1]) + (if IsAlphanumeric(s[|s| - 1] as int) then 1 else 0)
  }

  lemma {:induction false} AlphanumericCountAppend(a: Bytes, b: Bytes)
    ensures AlphanumericCount(a + b) == AlphanumericCount(a) + AlphanumericCount(b)
  {
    if b == [] {
      assert a + b == a;
    } else {
      assert (a + b)[..|a + b| - 1] == a + b[..|b| - 1];
      AlphanumericCountAppend(a, b[..|b| - 1]);
    }
  }

  /** The count reaches the length exactly when every byte is alphanumeric, and is 0 exactly when none is. */
  lemma {:induction false} AlphanumericCountBounds(s: Bytes)
    ensures AlphanumericCount(s) == |s| <==> forall i :: 0 <= i < |s| ==> IsAlphanumeric(s[i] as int)
    ensures AlphanumericCount(s) == 0 <==> forall i :: 0 <= i < |s| ==> !IsAlphanumeric(s[i] as int)
  {
    if s != [] {
      var init := s[..|s| - 1];
      AlphanumericCountBounds(init);
      assert forall i :: 0 <= i < |init| ==> init[i] == s[i];
    }
  }

  /** Rule 1: one point per alphanumeric character of the retailer name. */
  function RetailerPoints(r: Receipt): nat
  {
    AlphanumericCount(r.Retailer)
  }

  // Rules 2 and 3

  /** Rule 2: 50 points for a round-dollar total. */
  function RoundDollarPoints(cents: int): int
  {
    if cents == 0 then 50 else 0
  }

  /** Rule 3: 25 points when the cent part is a multiple of 25. */
  function QuarterPoints(cents: int): int
  {
    if GoRem(cents, 25) == 0 then 25 else 0
  }

  /** Rules 2 and 3 together: 75 for no cents, 25 for a quarter, nothing otherwise. */
  lemma TotalRules(cents: int)
    requires 0 <= cents < 100
    ensures RoundDollarPoints(cents) + QuarterPoints(cents) ==
      if cents == 0 then 75 else if cents in {25, 50, 75} then 25 else 0
  {
    GoRemFacts(cents);
  }

  // Rule 4

  /** Rule 4: five points for every two items. */
  function PairPoints(count: nat): (p: nat)
    ensures p % 5 == 0 && p <= 5 * count / 2
  {
    count / 2 * 5
  }

  lemma PairPointsTable()
    ensures PairPoints(0) == 0 && PairPoints(1) == 0
    ensures PairPoints(2) == 5 && PairPoints(3) == 5
    ensures PairPoints(4) == 10 && PairPoints(5) == 10
  {
  }

  /** An item added to an odd number of items completes a pair; to an even number it does not. */
  lemma PairPointsStep(count: nat)
    ensures PairPoints(count + 1) == PairPoints(count) + (if count % 2 == 1 then 5 else 0)
  {
  }

  // Rule 5

  /** `ceil(price * 0.2)` for a price given in cents: the least k with 500 * k >= cents. */
  function CeilFifth(cents: int): (k: int)
    ensures 500 * k >= cents && 500 * (k - 1) < cents
  {
    (cents + 499) / 500
  }

  const UpperG: byte := 'G' as byte
  const LowerG: byte := 'g' as byte

  /**
   * Rule 5 for one item: a trimmed description whose byte length is a
   * multiple of 3 earns a fifth of the price rounded up; otherwise one whose
   * first byte is 'G' or 'g' earns 10. The index is in range because a length
   * that is not a multiple of 3 is not 0.
   */
  function ItemPoints(item: Item): (p: int)
    ensures |TrimSpace(item.ShortDescription)| % 3 != 0 ==> p == 0 || p == 10
    ensures |TrimSpace(item.ShortDescription)| % 3 == 0 ==> 500 * p >= item.Price > 500 * (p - 1)
    ensures item.Price >= 0 ==> p >= 0
  {
    var trimmed := TrimSpace(item.ShortDescription);
    if |trimmed| % 3 == 0 then CeilFifth(item.Price)
    else if trimmed[0] == UpperG || trimmed[0] == LowerG then 10
    else 0
  }

  /** The three outcomes of rule 5 for one item. */
  lemma ItemPointsCases(item: Item)
    ensures var t := TrimSpace(item.ShortDescription);
      |t| % 3 != 0 ==> |t| >= 1 && (ItemPoints(item) == 10 <==> t[0] in {UpperG, LowerG})
    ensures var t := TrimSpace(item.ShortDescription);
      |t| % 3 != 0 ==> ItemPoints(item) in {0, 10}
    ensures AllSpace(item.ShortDescription) ==> ItemPoints(item) == CeilFifth(item.Price)
  {
    TrimSpaceEdges(item.ShortDescription);
  }

  /**
   * Rule 5 is the one rule that can subtract: a price of -500.00 on a
   * description whose length is a multiple of 3 earns ceil(-100.0) = -100.
   * Only a negative price does this, and `ParseCents` never yields one.
   */
  lemma NegativePriceSubtracts()
    ensures ItemPoints(Item(Ascii("abc"), -50000)) == -100
  {
    TrimSpaceIdempotentOn(Ascii("abc"));
  }

  /** An item's points depend on its description only through the trimmed description. */
  lemma ItemPointsByTrim(d: Bytes, d': Bytes, price: int)
    requires TrimSpace(d) == TrimSpace(d')
    ensures ItemPoints(Item(d, price)) == ItemPoints(Item(d', price))
  {
  }

  /** Surrounding whitespace never changes an item's points. */
  lemma ItemPointsIgnoresPadding(pre: Bytes, core: Bytes, post: Bytes, price: int)
    requires AllSpace(pre) && AllSpace(post)
    requires core != [] ==> !IsSpace(core[0]) && !IsSpace(core[|core| - 1])
    ensures ItemPoints(Item(pre + core + post, price)) == ItemPoints(Item(core, price))
  {
    assert TrimSpace(pre + core + post) == TrimSpace(core) by {
      TrimSpaceIdempotentOn(core);
      TrimSpacePadding(pre, core, post);
    }
    ItemPointsByTrim(pre + core + post, core, price);
  }

  /** Rule 5 summed over the items. */
  function ItemsPoints(items: seq<Item>): int
  {
    if items == [] then 0 else ItemsPoints(items[..|items| - 1]) + ItemPoints(items[|items| - 1])
  }

  lemma {:induction false} ItemsPointsAppend(xs: seq<Item>, ys: seq<Item>)
    ensures ItemsPoints(xs + ys) == ItemsPoints(xs) + ItemsPoints(ys)
  {
    if ys == [] {
      assert xs + ys == xs;
    } else {
      assert (xs + ys)[..|xs + ys| - 1] == xs + ys[..|ys| - 1];
      ItemsPointsAppend(xs, ys[..|ys| - 1]);
    }
  }

  /** The points of one more item of a prefix. */
  lemma ItemsPointsPrefix(items: seq<Item>, j: nat)
    requires j < |items|
    ensures ItemsPoints(items[..j + 1]) == ItemsPoints(items[..j]) + ItemPoints(items[j])
  {
    assert items[..j + 1][..j] == items[..j];
  }

  /** Items with non-negative prices never cost points. */
  lemma {:induction false} ItemsPointsNonNegative(items: seq<Item>)
    requires forall i :: 0 <= i < |items| ==> items[i].Price >= 0
    ensures ItemsPoints(items) >= 0
  {
    if items != [] {
      ItemsPointsNonNegative(items[..|items| - 1]);
    }
  }

  // Rule 6

  /** Rule 6: 6 points when the day is odd, as Go's `day % 2 == 1` decides it. */
  function OddDayPoints(day: int): int
  {
    if GoRem(day, 2) == 1 then 6 else 0
  }

  /** Only positive odd days qualify: Go's remainder of a negative odd day is -1. */
  lemma OddDayPointsCases(day: int)
    ensures OddDayPoints(day) == 6 <==> day > 0 && day % 2 == 1
    ensures OddDayPoints(day) in {0, 6}
  {
    GoRemFacts(day);
  }

  // Rule 7

  /** Rule 7: 10 points for a purchase after 2:00pm and before 4:00pm. */
  function AfternoonPoints(hour: int, minute: int): int
  {
    var after2PM := hour > 14 || (hour == 14 && minute > 0);
    var before4PM := hour < 16;
    if after2PM && before4PM then 10 else 0
  }

  /** The window is 14:01 to 15:59 (any minute of hour 15). */
  lemma AfternoonWindow(hour: int, minute: int)
    ensures AfternoonPoints(hour, minute) == 10 <==> (hour == 14 && minute > 0) || hour == 15
    ensures AfternoonPoints(hour, minute) in {0, 10}
  {
  }

  lemma AfternoonBoundaries()
    ensures AfternoonPoints(14, 0) == 0 && AfternoonPoints(14, 1) == 10
    ensures AfternoonPoints(15, 59) == 10 && AfternoonPoints(16, 0) == 0
  {
  }

  // The total

  /** The points of a receipt: the sum of the seven rules. */
  function Points(r: Receipt): (p: int)
    ensures var rest := p - AlphanumericCount(r.Retailer) - PairPoints(|r.Items|) - ItemsPoints(r.Items);
      0 <= rest <= 75 + 6 + 10
  {
    RetailerPoints(r) + RoundDollarPoints(r.TotalCents) + QuarterPoints(r.TotalCents) + PairPoints(|r.Items|)
      + ItemsPoints(r.Items) + OddDayPoints(r.PurchaseDay) + AfternoonPoints(r.PurchaseHour, r.PurchaseMinute)
  }

  /** A receipt whose prices are non-negative never scores below zero. */
  lemma PointsNonNegative(r: Receipt)
    requires forall i :: 0 <= i < |r.Items| ==> r.Items[i].Price >= 0
    ensures Points(r) >= 0
  {
    ItemsPointsNonNegative(r.Items);
    OddDayPointsCases(r.PurchaseDay);
    AfternoonWindow(r.PurchaseHour, r.PurchaseMinute);
  }

  /** Points depend only on the fields the rules read, not on `Id`, `Points` or the raw text fields. */
  lemma PointsIgnoreBookkeeping(r: Receipt, id: string, points: int, date: Bytes, time: Bytes, total: int)
    ensures Points(r.(Id := id, Points := points, PurchaseDate := date, PurchaseTime := time, Total := total)) == Points(r)
  {
  }

  /** `calculatePoints`: a loop over the retailer's characters, the total rules, then a loop over the items. */
  method CalculatePoints(r: Receipt) returns (points: int)
    ensures points == Points(r)
  {
    points := 0;

    // Rule 1
    var i := 0;
    while i < |r.Retailer|
      invariant 0 <= i <= |r.Retailer|
      invariant points == AlphanumericCount(r.Retailer[..i])
    {
      assert r.Retailer[..i + 1][..i] == r.Retailer[..i];
      if IsAlphanumeric(r.Retailer[i] as int) {
        points := points + 1;
      }
      i := i + 1;
    }
    assert r.Retailer[..i] == r.Retailer;
    assert points == RetailerPoints(r);

    // Rule 2
    if r.TotalCents == 0 {
      points := points + 50;
    }

    // Rule 3
    if GoRem(r.TotalCents, 25) == 0 {
      points := points + 25;
    }

    // Rule 4
    points := points + |r.Items| / 2 * 5;

    assert points == RetailerPoints(r) + RoundDollarPoints(r.TotalCents) + QuarterPoints(r.TotalCents) + PairPoints(|r.Items|);

    // Rule 5
    var base := points;
    var j := 0;
    while j < |r.Items|
      invariant 0 <= j <= |r.Items|
      invariant points == base + ItemsPoints(r.Items[..j])
    {
      var item := r.Items[j];
      var trimmed := TrimSpace(item.ShortDescription);
      var gained := 0;
      if |trimmed| % 3 == 0 {
        gained := CeilFifth(item.Price);
      } else {
        // in range: a length that is not a multiple of 3 is not 0
        if trimmed[0] == UpperG || trimmed[0] == LowerG {
          gained := 10;
        }
      }
      assert gained == ItemPoints(item);
      ItemsPointsPrefix(r.Items, j);
      points := points + gained;
      j := j + 1;
    }
    assert r.Items[..j] == r.Items;
    assert points == base + ItemsPoints(r.Items);

    // Rule 6
    if GoRem(r.PurchaseDay, 2) == 1 {
      points := points + 6;
    }

    // Rule 7
    var after2PM := r.PurchaseHour > 14 || (r.PurchaseHour == 14 && r.PurchaseMinute > 0);
    var before4PM := r.PurchaseHour < 16;
    if after2PM && before4PM {
      points := points + 10;
    }
  }
}
