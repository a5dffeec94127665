/**
 * Properties that relate several operations on the record list: what a
 * lookup sees after a create, a delete or an update, and which of them keep
 * identifiers unique. The server itself never checks uniqueness; it rests on
 * the generated identifiers being fresh, which appears here as a precondition.
 */
module StoreLemmas {
  import opened Records
  import opened Store

  /** The list after appending one stamped body per generated id, in order. */
  function Creates(s: seq<Record>, bodies: seq<Record>, ids: seq<string>): (r: seq<Record>)
    requires |bodies| == |ids|
    ensures |r| == |s| + |bodies|
    ensures r[..|s|] == s
    ensures forall k :: 0 <= k < |bodies| ==> r[|s| + k] == WithId(bodies[k], ids[k])
    decreases |bodies|
  {
    if bodies == [] then s
    else
      var r := Creates(s + [WithId(bodies[0], ids[0])], bodies[1..], ids[1..]);
      assert r[..|s|] == r[..|s| + 1][..|s|];
      r
  }

  /** Identifiers pairwise distinct. */
  predicate Distinct(ids: seq<string>)
  {
    forall i, j :: 0 <= i < j < |ids| ==> ids[i] != ids[j]
  }

  /** After a create with an id no record carries, a lookup of that id finds the new, last record. */
  lemma {:induction false} CreatedIsFound(s: seq<Record>, body: Record, newId: string)
    requires IdAbsent(s, newId)
    ensures FirstMatch(s + [WithId(body, newId)], newId) == |s|
  {
    var t := s + [WithId(body, newId)];
    assert HasId(t[|s|], newId);
    assert forall k :: 0 <= k < |s| ==> t[k] == s[k] && !HasId(t[k], newId);
  }

  /** A create with an id no record carries keeps identifiers unique. */
  lemma CreateKeepsIdsUnique(s: seq<Record>, body: Record, newId: string)
    requires UniqueIds(s) && IdAbsent(s, newId)
    ensures UniqueIds(s + [WithId(body, newId)])
  {
  }

  /**
   * Any number of sequential creates with distinct fresh ids keep identifiers
   * unique, and each new record is the one a lookup of its id finds.
   */
  lemma {:induction false} SequentialCreatesKeepIdsUnique(s: seq<Record>, bodies: seq<Record>, ids: seq<string>)
    requires |bodies| == |ids|
    requires UniqueIds(s) && Distinct(ids)
    requires forall k :: 0 <= k < |ids| ==> IdAbsent(s, ids[k])
    ensures UniqueIds(Creates(s, bodies, ids))
    ensures forall k :: 0 <= k < |ids| ==> FirstMatch(Creates(s, bodies, ids), ids[k]) == |s| + k
    decreases |bodies|
  {
    if bodies != [] {
      var t := s + [WithId(bodies[0], ids[0])];
      CreateKeepsIdsUnique(s, bodies[0], ids[0]);
      CreatedIsFound(s, bodies[0], ids[0]);
      forall k | 0 <= k < |ids[1..]| ensures IdAbsent(t, ids[1..][k]) {
        assert ids[1..][k] == ids[k + 1] != ids[0];
        assert IdAbsent(s, ids[k + 1]);
      }
      SequentialCreatesKeepIdsUnique(t, bodies[1..], ids[1..]);
      var r := Creates(s, bodies, ids);
      assert r == Creates(t, bodies[1..], ids[1..]);
      forall k | 0 <= k < |ids| ensures FirstMatch(r, ids[k]) == |s| + k {
        if k == 0 {
          // the first new record sits at |s| and the lookup stops there
          assert r[|s|] == WithId(bodies[0], ids[0]);
          assert forall m :: 0 <= m < |s| ==> r[m] == s[m];
          assert HasId(r[|s|], ids[0]);
        } else {
          assert ids[k] == ids[1..][k - 1];
        }
      }
    }
  }

  /** In a list with unique ids, only the first match carries `id`. */
  lemma OnlyMatchIsFirst(s: seq<Record>, id: string, k: nat)
    requires UniqueIds(s) && !IdAbsent(s, id)
    requires k < |s| && k != FirstMatch(s, id)
    ensures !HasId(s[k], id)
  {
  }

  /**
   * Deleting a present id from a list with unique ids leaves no record with
   * that id, and the remaining ids stay unique.
   */
  lemma DeleteRemovesId(s: seq<Record>, id: string)
    requires UniqueIds(s) && !IdAbsent(s, id)
    ensures IdAbsent(Without(s, FirstMatch(s, id)), id)
    ensures UniqueIds(Without(s, FirstMatch(s, id)))
  {
  }

  /**
   * Without unique ids, delete removes only the first match: a later record
   * with the same id survives, and a lookup then finds it, one place earlier.
   */
  lemma {:induction false} DuplicateSurvivesDelete(s: seq<Record>, id: string, j: nat)
    requires !IdAbsent(s, id)
    requires FirstMatch(s, id) < j < |s| && HasId(s[j], id)
    requires forall k :: FirstMatch(s, id) < k < j ==> !HasId(s[k], id)
    ensures FirstMatch(Without(s, FirstMatch(s, id)), id) == j - 1
  {
    var i := FirstMatch(s, id);
    var t := Without(s, i);
    assert HasId(t[j - 1], id);
    forall k | 0 <= k < j - 1 ensures !HasId(t[k], id) {
      if k < i {
        assert t[k] == s[k];
      } else {
        assert t[k] == s[k + 1];
      }
    }
  }

  /**
   * An update whose body leaves `id` alone, or repeats it, keeps the updated
   * record at the same position for a lookup of that id.
   */
  lemma {:induction false} UpdatedStaysFound(s: seq<Record>, id: string, body: Record)
    requires !IdAbsent(s, id)
    requires IdKey in body ==> body[IdKey] == id
    ensures var i := FirstMatch(s, id);
      FirstMatch(s[i := Merge(s[i], body)], id) == i
  {
    var i := FirstMatch(s, id);
    var t := s[i := Merge(s[i], body)];
    assert HasId(t[i], id);
    assert forall k :: 0 <= k < i ==> t[k] == s[k];
  }

  /**
   * An update whose body leaves `id` alone, or repeats it, keeps identifiers
   * unique: the merged record keeps its old id.
   */
  lemma UpdateKeepsIdsUnique(s: seq<Record>, id: string, body: Record)
    requires UniqueIds(s) && !IdAbsent(s, id)
    requires IdKey in body ==> body[IdKey] == id
    ensures var i := FirstMatch(s, id);
      UniqueIds(s[i := Merge(s[i], body)])
  {
  }

  /**
   * An update whose body carries another id moves the record to that id: in a
   * list with unique ids, the requested id is then absent.
   */
  lemma UpdateRenamesRecord(s: seq<Record>, id: string, body: Record)
    requires UniqueIds(s) && !IdAbsent(s, id)
    requires IdKey in body && body[IdKey] != id
    ensures var i := FirstMatch(s, id);
      IdAbsent(s[i := Merge(s[i], body)], id) && HasId(s[i := Merge(s[i], body)][i], body[IdKey])
  {
  }

  /** The body's `id` is not protected: an update can give two records the same id. */
  lemma UpdateCanDuplicateIds()
    ensures var s := [map[IdKey := "a"], map[IdKey := "b"]];
      var body := map[IdKey := "b"];
      UniqueIds(s) && FirstMatch(s, "a") == 0 && !UniqueIds(s[0 := Merge(s[0], body)])
  {
    var s := [map[IdKey := "a"], map[IdKey := "b"]];
    var body := map[IdKey := "b"];
    assert HasId(s[0], "a");
    var t := s[0 := Merge(s[0], body)];
    assert t[0][IdKey] == "b" && t[1][IdKey] == "b";
  }

  /** Merge, not replace: `{id, a: 0, b: 2}` updated with `{a: 1}` is `{id, a: 1, b: 2}`. */
  lemma MergeKeepsUnsentFields(id: string)
    ensures Merge(map[IdKey := id, "a" := "0", "b" := "2"], map["a" := "1"])
         == map[IdKey := id, "a" := "1", "b" := "2"]
  {
  }

  /**
   * After a submission in this session the table shows the session's list,
   * which ends with the new record, and not the whole store.
   */
  lemma TableShowsOwnSubmission(prior: Option<seq<Record>>, storage: seq<Record>, r: Record)
    ensures var rows := TableRows(Some(Submitted(prior) + [r]), storage);
      rows == Submitted(prior) + [r] && rows[|rows| - 1] == r
  {
  }
}
