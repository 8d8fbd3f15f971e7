/**
 * The receipt store: the package-level `Receipts` map and `UniqueReceipts`
 * fingerprint set of src/handlers/receipts/process.go, with `ProcessReceipts`
 * as its insert transition and `GetPoints` (src/handlers/receipts/points.go)
 * as its lookup. HTTP responses become `Response` values.
 */
module Store {
  import opened Wrappers
  import opened Text
  import opened Objects
  import Scoring
  import Fingerprint

  /** What a handler writes back, one value per response the source writes. */
  datatype Response =
    | Ok(id: string)
    | BadJson
    | Duplicate
    | ConvertFailed
    | NotFound
    | Points(points: int)
    /** The handler panicked and gin's Recovery middleware ended the request; the status already written stays. */
    | Aborted

  /**
   * The receipt stored for `api` under `id`: converted, its scored fields
   * derived, the id attached and the points computed. None when conversion or
   * the derivation fails.
   */
  function Scored(api: APIReceipt, id: string): (s: Option<Receipt>)
    ensures s.Some? <==> Converted(api).Some? && Normalize(Converted(api).value).Some?
    ensures s.Some? ==> s.value.Id == id && s.value.Points == Scoring.Points(s.value)
    ensures s.Some? ==> s.value.(Id := "", Points := 0) == Normalize(Converted(api).value).value
  {
    match Converted(api)
    case None => None
    case Some(r) =>
      match Normalize(r)
      case None => None
      case Some(n) =>
        var withId := n.(Id := id);
        Scoring.PointsIgnoreBookkeeping(withId, id, Scoring.Points(withId), withId.PurchaseDate, withId.PurchaseTime, withId.Total);
        Some(withId.(Points := Scoring.Points(withId)))
  }

  /** Parsed amounts are never negative, so neither is the score of any stored receipt. */
  lemma ScoredPointsNonNegative(api: APIReceipt, id: string)
    requires Scored(api, id).Some?
    ensures Scored(api, id).value.Points >= 0
  {
    var c := Converted(api).value;
    var s := Scored(api, id).value;
    assert forall i :: 0 <= i < |s.Items| ==> s.Items[i] == c.Items[i];
    Scoring.PointsNonNegative(s);
  }

  /** Every stored receipt carries its own key as id and the points its rules give. */
  ghost predicate WellKeyed(receipts: map<string, Receipt>)
  {
    forall id :: id in receipts ==> receipts[id].Id == id && receipts[id].Points == Scoring.Points(receipts[id])
  }

  /** Storing a scored receipt under its own id keeps the map well keyed. */
  lemma InsertKeepsWellKeyed(receipts: map<string, Receipt>, id: string, r: Receipt)
    requires WellKeyed(receipts)
    requires r.Id == id && r.Points == Scoring.Points(r)
    ensures WellKeyed(receipts[id := r])
  {
  }

  class ReceiptStore {
    /** In-memory storage of processed receipts, by id. */
    var Receipts: map<string, Receipt>
    /** Fingerprints of every receipt accepted so far. */
    var UniqueReceipts: set<bv32>

    ghost predicate Valid()
      reads this
    {
      WellKeyed(Receipts)
    }

    constructor ()
      ensures Valid() && Receipts == map[] && UniqueReceipts == {}
    {
      Receipts := map[];
      UniqueReceipts := {};
    }

    /**
     * `ProcessReceipts` as written. `data` is the bound JSON payload (None when
     * it does not bind) and `freshId` the identifier the source draws from
     * `uuid.New()`. A known fingerprint writes a Duplicate response and then
     * calls gin's `Context.Error` with the nil error `BindJSON` left, which
     * panics: the Recovery middleware that `gin.Default` installs ends the
     * request there, with nothing converted or stored.
     */
    method ProcessReceipts(data: Option<APIReceipt>, freshId: string) returns (replies: seq<Response>)
      requires Valid() && freshId !in Receipts
      modifies this
      ensures Valid()
      ensures data.None? ==>
        replies == [BadJson] && Receipts == old(Receipts) && UniqueReceipts == old(UniqueReceipts)
      ensures data.Some? && Fingerprint.Of(data.value) in old(UniqueReceipts) ==>
        replies == [Duplicate, Aborted] && Receipts == old(Receipts) && UniqueReceipts == old(UniqueReceipts)
      ensures data.Some? && Fingerprint.Of(data.value) !in old(UniqueReceipts) ==>
        match Scored(data.value, freshId)
        case None =>
          replies == [ConvertFailed] && Receipts == old(Receipts) && UniqueReceipts == old(UniqueReceipts)
        case Some(receipt) =>
          replies == [Ok(freshId)] &&
          Receipts == old(Receipts)[freshId := receipt] && UniqueReceipts == old(UniqueReceipts) + {Fingerprint.Of(data.value)}
    {
      if data.None? {
        return [BadJson];
      }
      var api := data.value;

      var hash := Fingerprint.GenerateHash(api);
      replies := [];
      if hash in UniqueReceipts {
        replies := replies + [Duplicate];
        // c.Error(err) with err == nil: gin panics, and Recovery ends the request
        return replies + [Aborted];
      }

      var receipt, err := Convert(api);
      if err.Some? {
        replies := replies + [ConvertFailed];
        return;
      }
      var normalized := Normalize(receipt);
      if normalized.None? {
        replies := replies + [ConvertFailed];
        return;
      }
      receipt := normalized.value;

      receipt := receipt.(Id := freshId);
      var points := Scoring.CalculatePoints(receipt);
      Scoring.PointsIgnoreBookkeeping(receipt, freshId, points, receipt.PurchaseDate, receipt.PurchaseTime, receipt.Total);
      receipt := receipt.(Points := points);
      InsertKeepsWellKeyed(Receipts, freshId, receipt);

      Receipts := Receipts[freshId := receipt];
      UniqueReceipts := UniqueReceipts + {hash};
      replies := replies + [Ok(freshId)];
    }

    /**
     * `ProcessReceipts` with the `return` its duplicate branch lacks and without
     * the `Context.Error` call on a nil error: a known fingerprint is answered
     * with Duplicate alone, no panic, and nothing changes.
     */
    method ProcessReceiptsChecked(data: Option<APIReceipt>, freshId: string) returns (replies: seq<Response>)
      requires Valid() && freshId !in Receipts
      modifies this
      ensures Valid()
      ensures data.None? ==>
        replies == [BadJson] && Receipts == old(Receipts) && UniqueReceipts == old(UniqueReceipts)
      ensures data.Some? && Fingerprint.Of(data.value) in old(UniqueReceipts) ==>
        replies == [Duplicate] && Receipts == old(Receipts) && UniqueReceipts == old(UniqueReceipts)
      ensures data.Some? && Fingerprint.Of(data.value) !in old(UniqueReceipts) ==>
        match Scored(data.value, freshId)
        case None =>
          replies == [ConvertFailed] && Receipts == old(Receipts) && UniqueReceipts == old(UniqueReceipts)
        case Some(receipt) =>
          replies == [Ok(freshId)] &&
          Receipts == old(Receipts)[freshId := receipt] && UniqueReceipts == old(UniqueReceipts) + {Fingerprint.Of(data.value)}
    {
      if data.None? {
        return [BadJson];
      }
      var api := data.value;

      var hash := Fingerprint.GenerateHash(api);
      if hash in UniqueReceipts {
        return [Duplicate];
      }

      var receipt, err := Convert(api);
      if err.Some? {
        return [ConvertFailed];
      }
      var normalized := Normalize(receipt);
      if normalized.None? {
        return [ConvertFailed];
      }
      receipt := normalized.value;

      receipt := receipt.(Id := freshId);
      var points := Scoring.CalculatePoints(receipt);
      Scoring.PointsIgnoreBookkeeping(receipt, freshId, points, receipt.PurchaseDate, receipt.PurchaseTime, receipt.Total);
      receipt := receipt.(Points := points);
      InsertKeepsWellKeyed(Receipts, freshId, receipt);

      Receipts := Receipts[freshId := receipt];
      UniqueReceipts := UniqueReceipts + {hash};
      replies := [Ok(freshId)];
    }

    /** `GetPoints`: the stored points of a known id, NotFound for any other. Changes nothing. */
    method GetPoints(id: string) returns (reply: Response)
      requires Valid()
      ensures id in Receipts ==> reply == Points(Receipts[id].Points) && reply == Points(Scoring.Points(Receipts[id]))
      ensures id !in Receipts ==> reply == NotFound
    {
      if id !in Receipts {
        return NotFound;
      }
      var receipt := Receipts[id];
      reply := Points(receipt.Points);
    }
  }

  /**
   * Insert then look up: a successfully processed receipt with a new
   * fingerprint answers with the points of its scored form, and still does
   * after any later submission under a different fresh id.
   */
  method InsertThenLookup(store: ReceiptStore, api: APIReceipt, id: string, other: Option<APIReceipt>, otherId: string)
      returns (first: Response, later: Response)
    requires store.Valid() && id !in store.Receipts && otherId !in store.Receipts && otherId != id
    requires Scored(api, id).Some? && Fingerprint.Of(api) !in store.UniqueReceipts
    modifies store
    ensures first == Points(Scoring.Points(Scored(api, id).value))
    ensures later == first
  {
    var replies := store.ProcessReceipts(Some(api), id);
    first := store.GetPoints(id);
    replies := store.ProcessReceipts(other, otherId);
    later := store.GetPoints(id);
  }

  /** A lookup on a store that never issued the id answers NotFound. */
  method LookupNeverIssued(id: string) returns (reply: Response)
    ensures reply == NotFound
  {
    var store := new ReceiptStore();
    reply := store.GetPoints(id);
  }

  /**
   * Submitting the same payload twice, as written: the second submission is
   * answered with Duplicate, then the handler panics; nothing is stored.
   */
  method ResubmitAsWritten(store: ReceiptStore, api: APIReceipt, id1: string, id2: string)
      returns (replies1: seq<Response>, replies2: seq<Response>)
    requires store.Valid() && id1 !in store.Receipts && id2 !in store.Receipts && id1 != id2
    requires Scored(api, id1).Some? && Fingerprint.Of(api) !in store.UniqueReceipts
    modifies store
    ensures replies1 == [Ok(id1)]
    ensures replies2 == [Duplicate, Aborted]
    ensures id1 in store.Receipts && id2 !in store.Receipts
  {
    replies1 := store.ProcessReceipts(Some(api), id1);
    replies2 := store.ProcessReceipts(Some(api), id2);
  }

  /** The same two submissions with the duplicate branch returning cleanly: the second is rejected without a panic and not stored. */
  method ResubmitChecked(store: ReceiptStore, api: APIReceipt, id1: string, id2: string)
      returns (replies1: seq<Response>, replies2: seq<Response>)
    requires store.Valid() && id1 !in store.Receipts && id2 !in store.Receipts && id1 != id2
    requires Scored(api, id1).Some? && Fingerprint.Of(api) !in store.UniqueReceipts
    modifies store
    ensures replies1 == [Ok(id1)]
    ensures replies2 == [Duplicate]
    ensures id1 in store.Receipts && id2 !in store.Receipts
  {
    replies1 := store.ProcessReceiptsChecked(Some(api), id1);
    replies2 := store.ProcessReceiptsChecked(Some(api), id2);
  }
}
