/** The journal routes (server/routes/journal.js): sentiment labelling and the owner-scoped
    entry collection behind POST, GET, DELETE and PUT on /api/journal. The store is an
    in-memory sequence of records; the sentiment library's scorer is a parameter of it. */
module JournalRoutes {
  import opened Wrappers
  import opened Seqs
  import opened JournalEntryModel

  const UnauthorizedUser := ApiError(401, "Unauthorized user")
  const SomethingWentWrong := ApiError(500, "Something went wrong.")
  const DeleteNotFound := ApiError(404, "Entry not found")
  const UpdateNotFound := ApiError(404, "Entry not found.")
  const EntryDeleted := "Entry deleted"

  /** The thresholding applied to the score on both create and update: only scores above 1 are
      positive and only scores below -1 are negative, so -1, 0 and 1 are all neutral. */
  function LabelOf(score: int): (sentiment: Label)
    ensures sentiment == Positive <==> score > 1
    ensures sentiment == Negative <==> score < -1
    ensures sentiment == Label.Neutral <==> -1 <= score <= 1
  {
    if score > 1 then Positive else if score < -1 then Negative else Label.Neutral
  }

  /** The `sub` claim of the verified token is present and truthy. */
  predicate Authenticated(sub: Option<string>)
  {
    sub.Some? && sub.value != ""
  }

  /** The record's stored label is the thresholding of its stored score. */
  predicate LabelAgrees(e: JournalEntry)
  {
    e.sentimentScore.Some? && e.sentimentLabel == Some(LabelOf(e.sentimentScore.value))
  }

  /** The filter `{ _id: id, userId }` of findOneAndDelete and findOneAndUpdate. */
  predicate Owns(e: JournalEntry, id: nat, userId: string)
  {
    e.id == id && e.userId == userId
  }

  /** The position of the record that the filter `{ _id: id, userId }` selects, if any. */
  function FindEntry(records: seq<JournalEntry>, id: nat, userId: string): (k: Option<nat>)
    ensures k.Some? ==> k.value < |records| && Owns(records[k.value], id, userId)
    ensures k.None? <==> forall i :: 0 <= i < |records| ==> !Owns(records[i], id, userId)
  {
    if records == [] then None
    else if Owns(records[0], id, userId) then Some(0)
    else match FindEntry(records[1..], id, userId)
      case None => None
      case Some(j) => Some(j + 1)
  }

  /** The records of one owner, as the query `find({ userId })` selects them. */
  function Owned(records: seq<JournalEntry>, userId: string): seq<JournalEntry>
  {
    Filter(records, (e: JournalEntry) => e.userId == userId)
  }

  /** The records that a delete by `(id, userId)` leaves in place. */
  function Unmatched(records: seq<JournalEntry>, id: nat, userId: string): seq<JournalEntry>
  {
    Filter(records, (e: JournalEntry) => !Owns(e, id, userId))
  }

  /** The order `sort({ createdAt: -1 })` asks for: most recent first. */
  ghost predicate NewestFirst(s: seq<JournalEntry>)
  {
    forall i, j :: 0 <= i < j < |s| ==> s[i].createdAt >= s[j].createdAt
  }

  function InsertNewestFirst(x: JournalEntry, s: seq<JournalEntry>): (r: seq<JournalEntry>)
    ensures multiset(r) == multiset(s) + multiset{x}
  {
    if s == [] || x.createdAt >= s[0].createdAt then [x] + s
    else
      assert s == [s[0]] + s[1..];
      [s[0]] + InsertNewestFirst(x, s[1..])
  }

  /** Inserting into a list sorted newest first keeps it sorted. */
  lemma {:induction false} InsertNewestFirstSorted(x: JournalEntry, s: seq<JournalEntry>)
    requires NewestFirst(s)
    ensures NewestFirst(InsertNewestFirst(x, s))
  {
    if s == [] || x.createdAt >= s[0].createdAt {
      ConsNewestFirst(x, s);
    } else {
      var t := InsertNewestFirst(x, s[1..]);
      InsertNewestFirstSorted(x, s[1..]);
      forall j | 0 <= j < |t| ensures s[0].createdAt >= t[j].createdAt {
        assert t[j] in multiset(s[1..]) + multiset{x};
        if t[j] != x {
          assert t[j] in s[1..];
        }
      }
      ConsNewestFirst(s[0], t);
    }
  }

  /** A record no older than the head of a newest-first list can go in front of it. */
  lemma ConsNewestFirst(x: JournalEntry, s: seq<JournalEntry>)
    requires NewestFirst(s)
    requires s == [] || x.createdAt >= s[0].createdAt
    ensures NewestFirst([x] + s)
  {
    var r := [x] + s;
    forall i, j | 0 <= i < j < |r| ensures r[i].createdAt >= r[j].createdAt {
      assert r[j] == s[j - 1];
      if i > 0 { assert r[i] == s[i - 1]; }
    }
  }

  /** A sort by `createdAt`, newest first. The store does not promise an order among records
      created at the same instant, so only the permutation and the order are stated. */
  function SortNewestFirst(s: seq<JournalEntry>): (r: seq<JournalEntry>)
    ensures multiset(r) == multiset(s)
    ensures NewestFirst(r)
  {
    if s == [] then []
    else
      assert s == [s[0]] + s[1..];
      var rest := SortNewestFirst(s[1..]);
      InsertNewestFirstSorted(s[0], rest);
      InsertNewestFirst(s[0], rest)
  }

  /** The collection of journal records with the scorer of the `sentiment` library. */
  class JournalStore {
    /** `sentiment.analyze(text).score`: foreign, total and deterministic. */
    const score: string -> int
    var records: seq<JournalEntry>
    /** The next `_id` the store hands out. */
    var nextId: nat

    /** Every stored record belongs to an owner, carries the score of its own text and the
        label of that score, and has an `_id` of its own. */
    ghost predicate Valid()
      reads this
    {
      && (forall i :: 0 <= i < |records| ==>
            && records[i].id < nextId
            && records[i].userId != ""
            && records[i].sentimentScore == Some(score(records[i].text))
            && LabelAgrees(records[i]))
      && UniqueIds(records)
    }

    constructor (score: string -> int)
      ensures Valid()
      ensures this.score == score && records == [] && nextId == 0
    {
      this.score := score;
      records := [];
      nextId := 0;
    }

    /** POST /api/journal. No subject gives 401; a record the schema rejects (empty text, a
        mood outside the enum) makes `save` throw, which the handler answers with 500. */
    method Create(sub: Option<string>, text: string, selectedMood: string, now: int)
      returns (r: Result<JournalEntry, ApiError>)
      requires Valid()
      modifies this
      ensures Valid()
      ensures !Authenticated(sub) ==> r == Failure(UnauthorizedUser)
      ensures Authenticated(sub) && (text == "" || selectedMood !in MoodEnum) ==>
                r == Failure(SomethingWentWrong)
      ensures r.Success? <==> Authenticated(sub) && text != "" && selectedMood in MoodEnum
      ensures r.Failure? ==> records == old(records) && nextId == old(nextId)
      ensures r.Success? ==>
                && records == old(records) + [r.value]
                && nextId == old(nextId) + 1
                && r.value.id == old(nextId)
                && r.value.userId == sub.value
                && r.value.text == text
                && r.value.selectedMood == selectedMood
                && r.value.sentimentScore == Some(score(text))
                && r.value.sentimentLabel == Some(LabelOf(score(text)))
                && r.value.createdAt == now && r.value.updatedAt == now
    {
      if !Authenticated(sub) {
        return Failure(UnauthorizedUser);
      }
      var s := score(text);
      var sentimentLabel := LabelOf(s);
      var entry := JournalEntry(nextId, sub.value, text, selectedMood, Some(s), Some(sentimentLabel), now, now);
      if !SchemaValid(entry) {
        return Failure(SomethingWentWrong);
      }
      records := records + [entry];
      nextId := nextId + 1;
      r := Success(entry);
    }

    /** GET /api/journal: the subject's records, newest first. */
    method List(sub: Option<string>) returns (r: Result<seq<JournalEntry>, ApiError>)
      ensures !Authenticated(sub) ==> r == Failure(UnauthorizedUser)
      ensures Authenticated(sub) ==> r.Success?
      ensures r.Success? ==> multiset(r.value) == multiset(Owned(records, sub.value))
      ensures r.Success? ==> NewestFirst(r.value)
      ensures r.Success? ==> forall e :: e in r.value <==> e in records && e.userId == sub.value
    {
      if !Authenticated(sub) {
        return Failure(UnauthorizedUser);
      }
      var owned := Owned(records, sub.value);
      var sorted := SortNewestFirst(owned);
      assert forall e :: e in sorted <==> e in owned by {
        forall e ensures e in sorted <==> e in owned {
          assert e in sorted <==> e in multiset(sorted);
          assert e in owned <==> e in multiset(owned);
        }
      }
      r := Success(sorted);
    }

    /** DELETE /api/journal/:id: removes the subject's record with that `_id`; a missing id and
        another owner's id give the same 404. */
    method Delete(userId: string, id: nat) returns (r: Result<string, ApiError>)
      requires Valid()
      modifies this
      ensures Valid() && nextId == old(nextId)
      ensures r.Failure? <==> FindEntry(old(records), id, userId).None?
      ensures r.Failure? ==> r.error == DeleteNotFound && records == old(records)
      ensures r.Success? ==> r.value == EntryDeleted && |records| == |old(records)| - 1
      ensures records == Unmatched(old(records), id, userId)
    {
      var found := FindEntry(records, id, userId);
      match found {
        case None =>
          UnmatchedWithoutMatch(records, id, userId);
          r := Failure(DeleteNotFound);
        case Some(k) =>
          UnmatchedRemovesMatch(records, id, userId, k);
          records := records[..k] + records[k + 1..];
          r := Success(EntryDeleted);
      }
    }

    /** PUT /api/journal/:id: rescoring the new text with the same thresholding as create and
        replacing text, mood, score and label of the subject's record with that `_id`. The
        update runs no validators, so an empty text or an unknown mood is stored as given. */
    method Update(userId: string, id: nat, text: string, selectedMood: string, now: int)
      returns (r: Result<JournalEntry, ApiError>)
      requires Valid()
      modifies this
      ensures Valid() && nextId == old(nextId)
      ensures r.Failure? <==> FindEntry(old(records), id, userId).None?
      ensures r.Failure? ==> r.error == UpdateNotFound && records == old(records)
      ensures r.Success? ==>
                var k := FindEntry(old(records), id, userId).value;
                && records == old(records)[k := r.value]
                && r.value.id == id && r.value.userId == userId
                && r.value.createdAt == old(records)[k].createdAt
                && r.value.text == text && r.value.selectedMood == selectedMood
                && r.value.sentimentScore == Some(score(text))
                && r.value.sentimentLabel == Some(LabelOf(score(text)))
                && r.value.updatedAt == now
    {
      var s := score(text);
      var sentimentLabel := LabelOf(s);
      var found := FindEntry(records, id, userId);
      match found {
        case None =>
          r := Failure(UpdateNotFound);
        case Some(k) =>
          var updated := records[k].(text := text, selectedMood := selectedMood,
                                     sentimentScore := Some(s), sentimentLabel := Some(sentimentLabel),
                                     updatedAt := now);
          records := records[k := updated];
          r := Success(updated);
      }
    }
  }

  /** `_id`s of distinct records differ. */
  ghost predicate UniqueIds(records: seq<JournalEntry>)
  {
    forall i, j :: 0 <= i < j < |records| ==> records[i].id != records[j].id
  }

  /** A delete whose filter matches nothing keeps every record. */
  lemma UnmatchedWithoutMatch(records: seq<JournalEntry>, id: nat, userId: string)
    requires FindEntry(records, id, userId).None?
    ensures Unmatched(records, id, userId) == records
  {
    FilterKeepsAll(records, (e: JournalEntry) => !Owns(e, id, userId));
  }

  /** With unique `_id`s the filter `{ _id: id, userId }` matches at most one record, so the
      delete removes exactly the matching one and keeps the order of the others. */
  lemma UnmatchedRemovesMatch(records: seq<JournalEntry>, id: nat, userId: string, k: nat)
    requires UniqueIds(records)
    requires k < |records| && Owns(records[k], id, userId)
    ensures Unmatched(records, id, userId) == records[..k] + records[k + 1..]
  {
    var keep := (e: JournalEntry) => !Owns(e, id, userId);
    forall j | 0 <= j < |records| && j != k
      ensures keep(records[j])
    {
      if j < k { assert records[j].id != records[k].id; }
      else { assert records[k].id != records[j].id; }
    }
    FilterRemovesAt(records, keep, k);
  }

  /** Round trip of create and list: a record appended to the collection is among the records
      listed for its owner. */
  lemma CreatedEntryIsListed(records: seq<JournalEntry>, e: JournalEntry)
    ensures e in SortNewestFirst(Owned(records + [e], e.userId))
  {
    var p := (x: JournalEntry) => x.userId == e.userId;
    FilterConcat(records, [e], p);
    assert e in Filter([e], p);
    var owned := Owned(records + [e], e.userId);
    assert e in multiset(owned);
  }

  /** Tenant isolation of the listing: the records listed for `userId` are exactly that owner's
      records, so no record of another owner ever appears. */
  lemma ListingIsOwnerScoped(records: seq<JournalEntry>, userId: string, e: JournalEntry)
    ensures e in SortNewestFirst(Owned(records, userId)) <==> e in records && e.userId == userId
  {
    var owned := Owned(records, userId);
    assert e in SortNewestFirst(owned) <==> e in multiset(SortNewestFirst(owned));
    assert e in owned <==> e in multiset(owned);
  }

  /** Round trip of delete and list: a record deleted by its owner is no longer listed for that
      owner, and every other record of the owner still is. */
  lemma DeletedEntryIsNotListed(records: seq<JournalEntry>, id: nat, userId: string, e: JournalEntry)
    requires e in records && e.userId == userId
    ensures e in Owned(Unmatched(records, id, userId), userId) <==> e.id != id
  {
  }
}
