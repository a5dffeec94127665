/**
 * Records and the value-level meaning of the operations the server performs on
 * its in-memory `storage` list: the `findIndex`/`find` scan by id, `splice` of
 * one element, the stamping of a generated id and the shallow object spread
 * used by an update.
 */
module Records {

  datatype Option<+T> = None | Some(value: T)

  /** A submitted record: field name to string value. */
  type Record = map<string, string>

  /** The field the server stamps with a generated identifier. */
  const IdKey: string := "id"

  /** `item.id === id`: a record without an `id` field never matches. */
  predicate HasId(r: Record, id: string): (b: bool)
    ensures IdKey !in r ==> !b
    ensures b ==> r[IdKey] == id
  {
    IdKey in r && r[IdKey] == id
  }

  /** No record of `s` carries the identifier `id`. */
  predicate IdAbsent(s: seq<Record>, id: string)
  {
    forall k :: 0 <= k < |s| ==> !HasId(s[k], id)
  }

  /** No two records of `s` carry the same identifier. */
  predicate UniqueIds(s: seq<Record>)
  {
    forall i, j :: 0 <= i < j < |s| && IdKey in s[i] && IdKey in s[j] ==> s[i][IdKey] != s[j][IdKey]
  }

  /**
   * `data.id = id` on the request body: the body with its `id` field set,
   * overwriting any `id` the client sent.
   */
  function WithId(fields: Record, id: string): (r: Record)
    ensures HasId(r, id)
    ensures r.Keys == fields.Keys + {IdKey}
    ensures forall k :: k in fields && k != IdKey ==> r[k] == fields[k]
  {
    fields[IdKey := id]
  }

  /**
   * `{ ...base, ...body }`: every key of either object; the body's value wins
   * on a shared key, including `id`.
   */
  function Merge(base: Record, body: Record): (r: Record)
    ensures r.Keys == base.Keys + body.Keys
    ensures forall k :: k in body ==> r[k] == body[k]
    ensures forall k :: k in base && k !in body ==> r[k] == base[k]
  {
    base + body
  }

  /**
   * `s.findIndex(item => item.id === id)`: the index of the first record
   * carrying `id`, or -1 when there is none.
   */
  function FirstMatch(s: seq<Record>, id: string): (i: int)
    ensures -1 <= i < |s|
    ensures i == -1 <==> IdAbsent(s, id)
    ensures 0 <= i ==> HasId(s[i], id) && forall k :: 0 <= k < i ==> !HasId(s[k], id)
  {
    if s == [] then -1
    else if HasId(s[0], id) then 0
    else
      var j := FirstMatch(s[1..], id);
      if j == -1 then -1 else j + 1
  }

  /** `s.splice(i, 1)`: `s` without its element at index `i`. */
  function Without(s: seq<Record>, i: nat): (r: seq<Record>)
    requires i < |s|
    ensures |r| == |s| - 1
    ensures forall k :: 0 <= k < i ==> r[k] == s[k]
    ensures forall k :: i <= k < |r| ==> r[k] == s[k + 1]
    ensures multiset(r) == multiset(s) - multiset{s[i]}
  {
    assert s == s[..i] + [s[i]] + s[i + 1..];
    s[..i] + s[i + 1..]
  }
}
