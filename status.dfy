/** The parser-status bookkeeping of the event parsers' main loops.  Each loop
    claims its records by marking them "running", parses them one by one,
    marks a record "error" when parsing gives no row or raises, and finally
    marks the records that gave a row "done".  The `all_data` table is modelled
    as a map from record id to the two columns the updates write; an update of
    an id that is not in the table changes nothing, as a PATCH that matches no
    row does. */
module Status {
  import opened Wrappers

  datatype State = Ready | Running | Done | Error

  /** The columns `parser_status` and `parser_parsed_at` of one record. */
  datatype Entry = Entry(status: State, parsedAt: Option<string>)

  /** What an update does to `parser_parsed_at`: leaves it, sets it to `null`, or
      sets it to a timestamp. */
  datatype Stamp = Keep | Clear | SetTo(time: string)

  /** The JSON body of a status update. */
  datatype Payload = Payload(status: State, parsedAt: Stamp)

  function Stamped(old_: Option<string>, st: Stamp): Option<string> {
    match st
    case Keep => old_
    case Clear => None
    case SetTo(t) => Some(t)
  }

  /** The entry after an update with payload `p`. */
  function Patched(e: Entry, p: Payload): (r: Entry)
    ensures r.status == p.status
    ensures p.parsedAt.Keep? ==> r.parsedAt == e.parsedAt
    ensures p.parsedAt.Clear? ==> r.parsedAt.None?
    ensures p.parsedAt.SetTo? ==> r.parsedAt == Some(p.parsedAt.time)
  {
    Entry(p.status, Stamped(e.parsedAt, p.parsedAt))
  }

  /** The same update applied twice is applied once, and an update that keeps
      the timestamp is overridden entirely by the next one. */
  lemma PatchedLaws(e: Entry, p: Payload, q: Payload)
    ensures Patched(Patched(e, p), p) == Patched(e, p)
    ensures p.parsedAt.Keep? ==> Patched(Patched(e, p), q) == Patched(e, q)
  {
  }

  /** Some record of the batch carries `id`. */
  predicate Claimed(ids: seq<Option<int>>, id: int) {
    exists k :: 0 <= k < |ids| && ids[k] == Some(id)
  }

  /** Some record carrying `id` gave a row. */
  predicate Succeeded(ids: seq<Option<int>>, produced: seq<bool>, id: int)
    requires |ids| == |produced|
  {
    exists k :: 0 <= k < |ids| && ids[k] == Some(id) && produced[k]
  }

  /** Some record carrying `id` gave no row or raised. */
  predicate FailedSome(ids: seq<Option<int>>, produced: seq<bool>, id: int)
    requires |ids| == |produced|
  {
    exists k :: 0 <= k < |ids| && ids[k] == Some(id) && !produced[k]
  }

  /** `ids_all`: the ids of the records that have one, in order. */
  function PresentIds(ids: seq<Option<int>>): (r: seq<int>)
    ensures forall id :: id in r <==> Claimed(ids, id)
  {
    if ids == [] then []
    else
      var rest := PresentIds(ids[1..]);
      assert forall id :: Claimed(ids, id) <==> ids[0] == Some(id) || Claimed(ids[1..], id) by {
        forall id ensures Claimed(ids, id) <==> ids[0] == Some(id) || Claimed(ids[1..], id) {
          if Claimed(ids, id) && ids[0] != Some(id) {
            var k :| 0 <= k < |ids| && ids[k] == Some(id);
            assert ids[1..][k - 1] == Some(id);
          }
          if Claimed(ids[1..], id) {
            var k :| 0 <= k < |ids| - 1 && ids[1..][k] == Some(id);
            assert ids[k + 1] == Some(id);
          }
        }
      }
      (if ids[0].Some? then [ids[0].value] else []) + rest
  }

  /** `ids_done`: the ids of the records that gave a row, in order. */
  function DoneIds(ids: seq<Option<int>>, produced: seq<bool>): (r: seq<int>)
    requires |ids| == |produced|
    ensures forall id :: id in r <==> Succeeded(ids, produced, id)
  {
    if ids == [] then []
    else
      var rest := DoneIds(ids[1..], produced[1..]);
      assert forall id :: Succeeded(ids, produced, id) <==>
                          (ids[0] == Some(id) && produced[0]) || Succeeded(ids[1..], produced[1..], id) by {
        forall id ensures Succeeded(ids, produced, id) <==>
                          (ids[0] == Some(id) && produced[0]) || Succeeded(ids[1..], produced[1..], id) {
          if Succeeded(ids, produced, id) && !(ids[0] == Some(id) && produced[0]) {
            var k :| 0 <= k < |ids| && ids[k] == Some(id) && produced[k];
            assert ids[1..][k - 1] == Some(id) && produced[1..][k - 1];
          }
          if Succeeded(ids[1..], produced[1..], id) {
            var k :| 0 <= k < |ids| - 1 && ids[1..][k] == Some(id) && produced[1..][k];
            assert ids[k + 1] == Some(id) && produced[k + 1];
          }
        }
      }
      (if ids[0].Some? && produced[0] then [ids[0].value] else []) + rest
  }

  lemma DoneIdsSnoc(ids: seq<Option<int>>, produced: seq<bool>, k: nat)
    requires |ids| == |produced| && k < |ids|
    ensures DoneIds(ids[..k + 1], produced[..k + 1]) ==
              DoneIds(ids[..k], produced[..k]) + (if ids[k].Some? && produced[k] then [ids[k].value] else [])
    decreases k
  {
    if k > 0 {
      assert ids[..k + 1][1..] == ids[1..][..k];
      assert produced[..k + 1][1..] == produced[1..][..k];
      assert ids[..k][1..] == ids[1..][..k - 1];
      assert produced[..k][1..] == produced[1..][..k - 1];
      DoneIdsSnoc(ids[1..], produced[1..], k - 1);
    }
  }

  /** The status table of `all_data`. */
  class Board {
    var entries: map<int, Entry>

    constructor(initial: map<int, Entry>)
      ensures entries == initial
    {
      entries := initial;
    }

    /** One PATCH of `id` with payload `p`. */
    method Patch(id: int, p: Payload)
      modifies this
      ensures entries == if id in old(entries) then old(entries)[id := Patched(old(entries)[id], p)] else old(entries)
    {
      if id in entries {
        entries := entries[id := Patched(entries[id], p)];
      }
    }

    /** The loop `for id_ in ids: PATCH id_ with payload` of `mark_running`,
        `mark_done` and `mark_status`. */
    method PatchAll(ids: seq<int>, p: Payload)
      modifies this
      ensures entries.Keys == old(entries).Keys
      ensures forall id | id in entries ::
                entries[id] == if id in ids then Patched(old(entries)[id], p) else old(entries)[id]
    {
      var k := 0;
      while k < |ids|
        invariant 0 <= k <= |ids|
        invariant entries.Keys == old(entries).Keys
        invariant forall id | id in entries ::
                    entries[id] == if id in ids[..k] then Patched(old(entries)[id], p) else old(entries)[id]
      {
        assert ids[..k + 1] == ids[..k] + [ids[k]];
        Patch(ids[k], p);
        k := k + 1;
      }
      assert ids[..k] == ids;
    }

    /** The status flow of a main loop over a batch: `ids[k]` is the id of the
        k-th record and `produced[k]` says whether parsing it gave a row.  Every
        claimed record first gets the `running` payload; a record whose id
        gave no row in any of its records ends with the `error` payload, one
        that gave a row in some record ends with the `done` payload, and a
        record outside the batch is untouched.  The error update only writes
        the status, so a later done update overrides it entirely. */
    method RunBatch(ids: seq<Option<int>>, produced: seq<bool>, running: Payload, error: Payload, done: Payload)
      returns (idsDone: seq<int>)
      requires |ids| == |produced|
      requires error.parsedAt.Keep?
      modifies this
      ensures idsDone == DoneIds(ids, produced)
      ensures entries.Keys == old(entries).Keys
      ensures forall id | id in entries && Succeeded(ids, produced, id) ::
                entries[id] == Patched(Patched(old(entries)[id], running), done)
      ensures forall id | id in entries && Claimed(ids, id) && !Succeeded(ids, produced, id) ::
                entries[id] == Patched(Patched(old(entries)[id], running), error)
      ensures forall id | id in entries && !Claimed(ids, id) :: entries[id] == old(entries)[id]
    {
      var all := PresentIds(ids);
      if |all| > 0 {
        PatchAll(all, running);
      }
      ghost var claimed := entries;
      idsDone := MarkFailures(ids, produced, error);
      ghost var parsed := entries;
      if |idsDone| > 0 {
        PatchAll(idsDone, done);
      }
      assert forall id | id in entries && FailedSome(ids, produced, id) :: Claimed(ids, id);
    }

    /** The loop over the records: collects the ids that gave a row and marks
        the others "error". */
    method MarkFailures(ids: seq<Option<int>>, produced: seq<bool>, error: Payload) returns (idsDone: seq<int>)
      requires |ids| == |produced|
      modifies this
      ensures idsDone == DoneIds(ids, produced)
      ensures entries.Keys == old(entries).Keys
      ensures forall id | id in entries ::
                entries[id] == if FailedSome(ids, produced, id) then Patched(old(entries)[id], error) else old(entries)[id]
    {
      idsDone := [];
      var k := 0;
      while k < |ids|
        invariant 0 <= k <= |ids|
        invariant entries.Keys == old(entries).Keys
        invariant idsDone == DoneIds(ids[..k], produced[..k])
        invariant forall id | id in entries ::
                    entries[id] == if FailedSome(ids[..k], produced[..k], id) then Patched(old(entries)[id], error) else old(entries)[id]
      {
        DoneIdsSnoc(ids, produced, k);
        FailedSomeSnoc(ids, produced, k);
        if ids[k].Some? {
          if produced[k] {
            idsDone := idsDone + [ids[k].value];
          } else {
            Patch(ids[k].value, error);
          }
        }
        k := k + 1;
      }
      assert ids[..k] == ids && produced[..k] == produced;
    }
  }

  lemma FailedSomeSnoc(ids: seq<Option<int>>, produced: seq<bool>, k: nat)
    requires |ids| == |produced| && k < |ids|
    ensures forall id :: FailedSome(ids[..k + 1], produced[..k + 1], id) <==>
                         FailedSome(ids[..k], produced[..k], id) || (ids[k] == Some(id) && !produced[k])
  {
    assert forall j :: 0 <= j < k ==> ids[..k + 1][j] == ids[..k][j] && produced[..k + 1][j] == produced[..k][j];
    assert ids[..k + 1][k] == ids[k] && produced[..k + 1][k] == produced[k];
  }
}
