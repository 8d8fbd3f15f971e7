/**
 * The receipt records of src/objects/receipt.go and `Convert`, which turns the
 * string-typed API receipt into the internal one. Prices and totals are exact
 * integer cents.
 */
module Objects {
  import opened Wrappers
  import opened Text
  import opened Strconv

  /** An item of the internal receipt; `Price` is in cents. */
  datatype Item = Item(ShortDescription: Bytes, Price: int)

  /**
   * The internal receipt. `TotalCents`, `PurchaseDay`, `PurchaseHour` and
   * `PurchaseMinute` are the fields the scoring rules read beyond the record's
   * declared ones; `Normalize` fills them.
   */
  datatype Receipt = Receipt(
    Id: string,
    Retailer: Bytes,
    PurchaseDate: Bytes,
    PurchaseTime: Bytes,
    Items: seq<Item>,
    Total: int,
    Points: int,
    TotalCents: int,
    PurchaseDay: int,
    PurchaseHour: int,
    PurchaseMinute: int)

  /** The API layer item: every field is untrusted text. */
  datatype APIItem = APIItem(ShortDescription: Bytes, Price: Bytes)

  /** The API layer receipt, as bound from the JSON payload. */
  datatype APIReceipt = APIReceipt(
    Retailer: Bytes,
    PurchaseDate: Bytes,
    PurchaseTime: Bytes,
    Items: seq<APIItem>,
    Total: Bytes)

  /** The error a failed number parse reports: the text that did not parse. */
  datatype NumError = NumError(Num: Bytes)

  /** Go's zero values of the two records. */
  const ZeroItem := Item([], 0)
  const ZeroReceipt := Receipt("", [], [], [], [], 0, 0, 0, 0, 0, 0)

  /** The first item whose price does not parse, if any. */
  function FirstBadPrice(items: seq<APIItem>): (k: Option<nat>)
    ensures k.None? <==> forall i :: 0 <= i < |items| ==> ParseCents(items[i].Price).Some?
    ensures k.Some? ==> k.value < |items| && ParseCents(items[k.value].Price).None?
    ensures k.Some? ==> forall i :: 0 <= i < k.value ==> ParseCents(items[i].Price).Some?
  {
    if items == [] then None
    else if ParseCents(items[0].Price).None? then Some(0)
    else
      match FirstBadPrice(items[1..])
      case None => None
      case Some(j) => Some(j + 1)
  }

  /** A price that fails after prices that all parse is the first bad one. */
  lemma {:induction false} FirstBadPriceAt(items: seq<APIItem>, k: nat)
    requires k < |items| && ParseCents(items[k].Price).None?
    requires forall i :: 0 <= i < k ==> ParseCents(items[i].Price).Some?
    ensures FirstBadPrice(items) == Some(k)
  {
    if k > 0 {
      FirstBadPriceAt(items[1..], k - 1);
    }
  }

  /** An item whose price parses, converted. */
  function ConvertedItem(a: APIItem): (item: Item)
    requires ParseCents(a.Price).Some?
    ensures item.ShortDescription == a.ShortDescription && Some(item.Price) == ParseCents(a.Price)
  {
    Item(a.ShortDescription, ParseCents(a.Price).value)
  }

  /**
   * The receipt `Convert` returns without error, or None when it returns an
   * error. Text fields are copied unchanged (descriptions are not trimmed),
   * items keep their number and order, and `Id`, `Points` and the derived
   * fields keep their zero values.
   */
  function Converted(api: APIReceipt): (r: Option<Receipt>)
    ensures r.Some? <==> ParseCents(api.Total).Some? && FirstBadPrice(api.Items).None?
    ensures r.Some? ==>
      && r.value.Retailer == api.Retailer
      && r.value.PurchaseDate == api.PurchaseDate
      && r.value.PurchaseTime == api.PurchaseTime
      && Some(r.value.Total) == ParseCents(api.Total)
      && |r.value.Items| == |api.Items|
      && (forall i :: 0 <= i < |api.Items| ==>
            r.value.Items[i].ShortDescription == api.Items[i].ShortDescription &&
            Some(r.value.Items[i].Price) == ParseCents(api.Items[i].Price))
    ensures r.Some? ==>
      r.value == ZeroReceipt.(Retailer := r.value.Retailer, PurchaseDate := r.value.PurchaseDate,
                              PurchaseTime := r.value.PurchaseTime, Items := r.value.Items,
                              Total := r.value.Total)
  {
    var total := ParseCents(api.Total);
    if total.None? || FirstBadPrice(api.Items).Some? then None
    else
      var items := seq(|api.Items|, i requires 0 <= i < |api.Items| => ConvertedItem(api.Items[i]));
      Some(ZeroReceipt.(Retailer := api.Retailer, PurchaseDate := api.PurchaseDate,
                        PurchaseTime := api.PurchaseTime, Items := items, Total := total.value))
  }

  /**
   * The items `Convert` leaves when the price at `k` fails: those before `k`
   * converted, the one at `k` holding only its description, the rest zero.
   */
  predicate StoppedAt(api: seq<APIItem>, items: seq<Item>, k: nat)
  {
    && k < |api| == |items|
    && (forall i :: 0 <= i < k ==> ParseCents(api[i].Price).Some? && items[i] == ConvertedItem(api[i]))
    && items[k] == Item(api[k].ShortDescription, 0)
    && (forall i :: k < i < |api| ==> items[i] == ZeroItem)
  }

  /**
   * `Convert`: copies the text fields, parses the total, then fills the items
   * in order, stopping at the first price that does not parse. On an error the
   * partly filled receipt is returned with it, as the source does.
   */
  method Convert(api: APIReceipt) returns (r: Receipt, err: Option<NumError>)
    ensures r.Retailer == api.Retailer && r.PurchaseDate == api.PurchaseDate && r.PurchaseTime == api.PurchaseTime
    ensures r.Id == "" && r.Points == 0
    ensures r.TotalCents == 0 && r.PurchaseDay == 0 && r.PurchaseHour == 0 && r.PurchaseMinute == 0
    // the total is parsed first: if it fails, no item is looked at
    ensures ParseCents(api.Total).None? ==> err == Some(NumError(api.Total)) && r.Items == [] && r.Total == 0
    ensures ParseCents(api.Total).Some? ==> Some(r.Total) == ParseCents(api.Total) && |r.Items| == |api.Items|
    // the first bad price aborts: earlier items are complete, this one has only
    // its description, later ones are still zero
    ensures ParseCents(api.Total).Some? && FirstBadPrice(api.Items).Some? ==>
      var k := FirstBadPrice(api.Items).value;
      err == Some(NumError(api.Items[k].Price)) && StoppedAt(api.Items, r.Items, k)
    ensures err.None? <==> Converted(api).Some?
    ensures err.None? ==> r == Converted(api).value
  {
    r := ZeroReceipt.(Retailer := api.Retailer, PurchaseDate := api.PurchaseDate, PurchaseTime := api.PurchaseTime);

    var total := ParseCents(api.Total);
    if total.None? {
      return r, Some(NumError(api.Total));
    }
    r := r.(Total := total.value);

    var items := new Item[|api.Items|](_ => ZeroItem);
    var i := 0;
    while i < |api.Items|
      invariant 0 <= i <= |api.Items| == items.Length
      invariant forall j :: 0 <= j < i ==> ParseCents(api.Items[j].Price).Some? && items[j] == ConvertedItem(api.Items[j])
      invariant forall j :: i <= j < items.Length ==> items[j] == ZeroItem
    {
      items[i] := ZeroItem;
      items[i] := items[i].(ShortDescription := api.Items[i].ShortDescription);
      var price := ParseCents(api.Items[i].Price);
      if price.None? {
        r := r.(Items := items[..]);
        assert StoppedAt(api.Items, r.Items, i);
        FirstBadPriceAt(api.Items, i);
        return r, Some(NumError(api.Items[i].Price));
      }
      items[i] := items[i].(Price := price.value);
      i := i + 1;
    }
    r := r.(Items := items[..]);
    ConvertedAll(api, r);
    err := None;
  }

  /** A receipt whose text fields, total and items are the API receipt's, converted, is what Converted gives. */
  lemma ConvertedAll(api: APIReceipt, r: Receipt)
    requires ParseCents(api.Total) == Some(r.Total) && |r.Items| == |api.Items|
    requires forall j :: 0 <= j < |api.Items| ==> ParseCents(api.Items[j].Price).Some? && r.Items[j] == ConvertedItem(api.Items[j])
    requires r == ZeroReceipt.(Retailer := api.Retailer, PurchaseDate := api.PurchaseDate,
                               PurchaseTime := api.PurchaseTime, Items := r.Items, Total := r.Total)
    ensures Converted(api) == Some(r)
  {
    assert FirstBadPrice(api.Items).None?;
    assert Converted(api).value.Items == r.Items;
  }

  /** The API receipt whose fields are the canonical spellings of `r`'s. */
  function ToAPI(r: Receipt): (api: APIReceipt)
    requires r.Total >= 0 && forall i :: 0 <= i < |r.Items| ==> r.Items[i].Price >= 0
  {
    APIReceipt(r.Retailer, r.PurchaseDate, r.PurchaseTime,
               seq(|r.Items|, i requires 0 <= i < |r.Items| => APIItem(r.Items[i].ShortDescription, FormatCents(r.Items[i].Price))),
               FormatCents(r.Total))
  }

  /** Converting the canonical API form of a fresh receipt gives it back. */
  lemma ConvertToAPI(r: Receipt)
    requires r.Total >= 0 && forall i :: 0 <= i < |r.Items| ==> r.Items[i].Price >= 0
    requires r == ZeroReceipt.(Retailer := r.Retailer, PurchaseDate := r.PurchaseDate,
                               PurchaseTime := r.PurchaseTime, Items := r.Items, Total := r.Total)
    ensures Converted(ToAPI(r)) == Some(r)
  {
    var api := ToAPI(r);
    FormatCentsRoundTrip(r.Total);
    forall i | 0 <= i < |r.Items|
      ensures ParseCents(api.Items[i].Price) == Some(r.Items[i].Price)
    {
      FormatCentsRoundTrip(r.Items[i].Price);
    }
    var c := Converted(api).value;
    assert c.Items == r.Items;
  }

  /**
   * The derivation of the fields the scoring rules read, which the receipt
   * record does not itself declare: the total's cent part, the day from the
   * date split on '-' (year 16-bit, month and day 8-bit signed), and the hour
   * and minute from the time split on ':' (8-bit signed). Nothing else changes.
   */
  function Normalize(r: Receipt): (n: Option<Receipt>)
    ensures n.Some? ==>
      n.value == r.(TotalCents := n.value.TotalCents, PurchaseDay := n.value.PurchaseDay,
                    PurchaseHour := n.value.PurchaseHour, PurchaseMinute := n.value.PurchaseMinute)
    ensures n.Some? ==> 0 <= n.value.TotalCents < 100 && r.Total == 100 * (r.Total / 100) + n.value.TotalCents
    ensures n.Some? ==>
      InSignedRange(n.value.PurchaseDay, 8) && InSignedRange(n.value.PurchaseHour, 8) &&
      InSignedRange(n.value.PurchaseMinute, 8)
    ensures n.Some? ==> |Split(r.PurchaseDate, '-' as byte)| == 3 && |Split(r.PurchaseTime, ':' as byte)| == 2
  {
    var date := Split(r.PurchaseDate, '-' as byte);
    var time := Split(r.PurchaseTime, ':' as byte);
    if |date| != 3 || |time| != 2 then None
    else
      match (ParseInt(date[0], 16), ParseInt(date[1], 8), ParseInt(date[2], 8), ParseInt(time[0], 8), ParseInt(time[1], 8))
      case (Some(_), Some(_), Some(day), Some(hour), Some(minute)) =>
        Some(r.(TotalCents := r.Total % 100, PurchaseDay := day, PurchaseHour := hour, PurchaseMinute := minute))
      case _ => None
  }

  /** A date "Y-M-D" and a time "H:M" put together from their digit fields, leading zeros included. */
  function FormatDate(year: Bytes, month: Bytes, day: Bytes): Bytes
  {
    year + ['-' as byte] + month + ['-' as byte] + day
  }

  function FormatTime(hour: Bytes, minute: Bytes): Bytes
  {
    hour + [':' as byte] + minute
  }

  /** A non-empty string of digits, as the fields of "YYYY-MM-DD" and "HH:MM" are. */
  predicate DigitField(s: Bytes)
  {
    s != [] && AllDigits(s)
  }

  /**
   * Normalizing a date and a time whose fields are digit strings with
   * in-range values (zero padding allowed) recovers the day, hour and
   * minute those digits spell, and the total modulo 100.
   */
  lemma NormalizeFormatted(r: Receipt, year: Bytes, month: Bytes, day: Bytes, hour: Bytes, minute: Bytes)
    requires DigitField(year) && DigitField(month) && DigitField(day) && DigitField(hour) && DigitField(minute)
    requires DecimalValue(year) < 32768 && DecimalValue(month) < 128 && DecimalValue(day) < 128
    requires DecimalValue(hour) < 128 && DecimalValue(minute) < 128
    requires r.PurchaseDate == FormatDate(year, month, day) && r.PurchaseTime == FormatTime(hour, minute)
    ensures Normalize(r) ==
      Some(r.(TotalCents := r.Total % 100, PurchaseDay := DecimalValue(day),
              PurchaseHour := DecimalValue(hour), PurchaseMinute := DecimalValue(minute)))
  {
    SplitFormatDate(year, month, day);
    SplitFormatTime(hour, minute);
    ParseField(year, 16, 32768);
    ParseField(month, 8, 128);
    ParseField(day, 8, 128);
    ParseField(hour, 8, 128);
    ParseField(minute, 8, 128);
    NormalizeParts(r, [year, month, day], [hour, minute]);
  }

  /** A digit field below the bound of its width parses to its value. */
  lemma ParseField(d: Bytes, bits: nat, bound: nat)
    requires DigitField(d) && (bits, bound) in {(8, 128), (16, 32768)} && DecimalValue(d) < bound
    ensures ParseInt(d, bits) == Some(DecimalValue(d) as int)
  {
    assert Pow2(7) == 128 && Pow2(15) == 32768;
    ParseIntOfDigits(d, bits);
  }

  /** Normalize once the date and time have split into fields that parse. */
  lemma NormalizeParts(r: Receipt, date: seq<Bytes>, time: seq<Bytes>)
    requires Split(r.PurchaseDate, '-' as byte) == date && Split(r.PurchaseTime, ':' as byte) == time
    requires |date| == 3 && |time| == 2
    requires ParseInt(date[0], 16).Some? && ParseInt(date[1], 8).Some? && ParseInt(date[2], 8).Some?
    requires ParseInt(time[0], 8).Some? && ParseInt(time[1], 8).Some?
    ensures Normalize(r) ==
      Some(r.(TotalCents := r.Total % 100, PurchaseDay := ParseInt(date[2], 8).value,
              PurchaseHour := ParseInt(time[0], 8).value, PurchaseMinute := ParseInt(time[1], 8).value))
  {
  }

  /** The digit fields of "2022-01-01" and "14:01". */
  const Year2022: Bytes := ['2' as byte, '0' as byte, '2' as byte, '2' as byte]
  const Padded01: Bytes := ['0' as byte, '1' as byte]
  const Hour14: Bytes := ['1' as byte, '4' as byte]

  /** The rule 7 boundary spelled as the API spells it: "2022-01-01" and "14:01" give day 1 at 14:01. */
  lemma NormalizePadded(r: Receipt)
    requires r.PurchaseDate == Ascii("2022-01-01") && r.PurchaseTime == Ascii("14:01")
    ensures Normalize(r).Some?
    ensures Normalize(r).value.PurchaseDay == 1
    ensures Normalize(r).value.PurchaseHour == 14 && Normalize(r).value.PurchaseMinute == 1
  {
    PaddedValues();
    PaddedSpelling();
    NormalizeFormatted(r, Year2022, Padded01, Padded01, Hour14, Padded01);
  }

  lemma PaddedValues()
    ensures DigitField(Year2022) && DigitField(Padded01) && DigitField(Hour14)
    ensures DecimalValue(Year2022) == 2022 && DecimalValue(Padded01) == 1 && DecimalValue(Hour14) == 14
  {
    TwoDigits('0' as byte, '1' as byte);
    TwoDigits('1' as byte, '4' as byte);
    TwoDigits('2' as byte, '0' as byte);
    DecimalValueAppend(['2' as byte, '0' as byte], '2' as byte);
    DecimalValueAppend(['2' as byte, '0' as byte, '2' as byte], '2' as byte);
    assert ['2' as byte, '0' as byte] + ['2' as byte] == ['2' as byte, '0' as byte, '2' as byte];
    assert ['2' as byte, '0' as byte, '2' as byte] + ['2' as byte] == Year2022;
  }

  /** The value of a two-digit field. */
  lemma TwoDigits(a: byte, b: byte)
    requires IsDigit(a) && IsDigit(b)
    ensures DecimalValue([a, b]) == (a - '0' as byte) as int * 10 + (b - '0' as byte) as int
  {
    DecimalValueAppend([], a);
    DecimalValueAppend([a], b);
    assert [] + [a] == [a] && [a] + [b] == [a, b];
  }

  lemma PaddedSpelling()
    ensures Ascii("2022-01-01") == FormatDate(Year2022, Padded01, Padded01)
    ensures Ascii("14:01") == FormatTime(Hour14, Padded01)
  {
  }

  lemma SplitFormatDate(year: Bytes, month: Bytes, day: Bytes)
    requires AllDigits(year) && AllDigits(month) && AllDigits(day)
    ensures Split(FormatDate(year, month, day), '-' as byte) == [year, month, day]
  {
    var dash := '-' as byte;
    var parts := [year, month, day];
    assert Join(parts[1..], dash) == month + [dash] + day;
    assert Join(parts, dash) == FormatDate(year, month, day);
    DigitsHaveNo(year, dash);
    DigitsHaveNo(month, dash);
    DigitsHaveNo(day, dash);
    SplitJoin(parts, dash);
  }

  lemma SplitFormatTime(hour: Bytes, minute: Bytes)
    requires AllDigits(hour) && AllDigits(minute)
    ensures Split(FormatTime(hour, minute), ':' as byte) == [hour, minute]
  {
    var colon := ':' as byte;
    var parts := [hour, minute];
    assert Join(parts[1..], colon) == minute;
    assert Join(parts, colon) == FormatTime(hour, minute);
    DigitsHaveNo(hour, colon);
    DigitsHaveNo(minute, colon);
    SplitJoin(parts, colon);
  }

  lemma DigitsHaveNo(s: Bytes, b: byte)
    requires AllDigits(s) && !IsDigit(b)
    ensures b !in s
  {
  }
}
