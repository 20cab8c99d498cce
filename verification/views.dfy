/** The derived views of `GlobalModel`: the sorted `profileList`, the `activeProfile`
    lookup, and the dapp filter of `fetchTopDapps`. */
module Views {
  import opened Wrappers
  import opened Profiles
  import opened Sorting

  /** No entry of the list occurs twice. */
  predicate NoRepeats(s: seq<Profile>) {
    forall i, j | 0 <= i < j < |s| :: s[i] != s[j]
  }

  lemma {:induction false} NoRepeatsCounts(s: seq<Profile>)
    requires NoRepeats(s)
    ensures forall x :: multiset(s)[x] == if x in s then 1 else 0
  {
    if s != [] {
      assert s == [s[0]] + s[1..];
      NoRepeatsCounts(s[1..]);
      assert forall j | 1 <= j < |s| :: s[j] != s[0];
      assert s[0] !in s[1..];
    }
  }

  /** A repetition-free listing of the dictionary's values holds each of them once. */
  lemma ListingIsPermutation(values: seq<Profile>, byId: map<ProfileId, Profile>)
    requires NoRepeats(values)
    requires forall p :: p in values <==> p in byId.Values
    ensures multiset(values) == multiset(byId.Values)
  {
    NoRepeatsCounts(values);
    assert forall x :: multiset(values)[x] == multiset(byId.Values)[x];
  }

  /** The dictionary's values in the (unspecified) order a dictionary iterates them: one entry
      per key. */
  method DictionaryValues(byId: map<ProfileId, Profile>) returns (values: seq<Profile>)
    ensures |values| == |byId|
    ensures forall p :: p in values <==> p in byId.Values
    ensures WellKeyed(byId) ==> NoRepeats(values)
  {
    var rest := byId.Keys;
    values := [];
    ghost var seen: seq<ProfileId> := [];
    while rest != {}
      invariant rest <= byId.Keys
      invariant |values| == |seen| && |seen| + |rest| == |byId|
      invariant forall i | 0 <= i < |seen| :: seen[i] in byId && seen[i] !in rest && values[i] == byId[seen[i]]
      invariant forall id | id in byId && id !in rest :: id in seen
      invariant forall i, j | 0 <= i < j < |seen| :: seen[i] != seen[j]
      decreases rest
    {
      var id :| id in rest;
      values := values + [byId[id]];
      seen := seen + [id];
      rest := rest - {id};
    }
    forall p | p in byId.Values
      ensures p in values
    {
      var id :| id in byId && byId[id] == p;
      var i :| 0 <= i < |seen| && seen[i] == id;
      assert values[i] == p;
    }
    if WellKeyed(byId) {
      forall i, j | 0 <= i < j < |values|
        ensures values[i] != values[j]
      {
        assert values[i].id == seen[i] && values[j].id == seen[j];
      }
    }
  }

  /** `profileList`: the dictionary's values sorted by lower-cased display name. */
  method ProfileList(byId: map<ProfileId, Profile>) returns (list: seq<Profile>)
    ensures |list| == |byId|
    ensures forall p :: p in list <==> p in byId.Values
    ensures WellKeyed(byId) ==> multiset(list) == multiset(byId.Values)
    ensures SortedByName(list)
  {
    var values := DictionaryValues(byId);
    if WellKeyed(byId) {
      ListingIsPermutation(values, byId);
    }
    list := SortByName(values);
    assert |list| == |multiset(list)| == |multiset(values)| == |values|;
    assert forall p :: p in list <==> p in multiset(values);
  }

  /** The dictionary lookup the active profile stands for: the profile filed under the id. */
  function Lookup(byId: map<ProfileId, Profile>, id: Option<ProfileId>): Option<Profile> {
    if id.Some? && id.value in byId then Some(byId[id.value]) else None
  }

  /** `first(where: { $0.id == id })`. */
  function FirstWithId(list: seq<Profile>, id: ProfileId): (r: Option<Profile>)
    ensures r.None? <==> forall i | 0 <= i < |list| :: list[i].id != id
    ensures r.Some? ==> exists i :: 0 <= i < |list| && list[i] == r.value && r.value.id == id
                                    && forall j | 0 <= j < i :: list[j].id != id
  {
    if list == [] then None
    else if list[0].id == id then Some(list[0])
    else
      var r := FirstWithId(list[1..], id);
      assert forall i | 1 <= i < |list| :: list[i] == list[1..][i - 1];
      r
  }

  /** `activeProfile`: the first profile of `profileList` whose id is `activeProfileId`. */
  method ActiveProfile(byId: map<ProfileId, Profile>, activeProfileId: Option<ProfileId>)
    returns (r: Option<Profile>)
    ensures activeProfileId.None? ==> r.None?
    ensures r.Some? ==> r.value in byId.Values && Some(r.value.id) == activeProfileId
    ensures r.None? && activeProfileId.Some? ==> forall id | id in byId :: byId[id].id != activeProfileId.value
    ensures WellKeyed(byId) ==> r == Lookup(byId, activeProfileId)
  {
    var list := ProfileList(byId);
    match activeProfileId {
      case None => r := None;
      case Some(id) =>
        r := FirstWithId(list, id);
        if r.None? {
          forall k | k in byId
            ensures byId[k].id != id
          {
            assert byId[k] in list;
          }
        }
    }
  }

  /** `a` is `b` with some entries left out, the rest in their original order. */
  predicate IsSubsequence(a: seq<Dapp>, b: seq<Dapp>)
    decreases |b|
  {
    if a == [] then true
    else if b == [] then false
    else (a[0] == b[0] && IsSubsequence(a[1..], b[1..])) || IsSubsequence(a, b[1..])
  }

  /** `dappList.filter { topDappIds.contains($0.id) }`. */
  function KeepListed(dapps: seq<Dapp>, ids: seq<DappId>): (r: seq<Dapp>)
    ensures forall d :: multiset(r)[d] == if d.id in ids then multiset(dapps)[d] else 0
    ensures IsSubsequence(r, dapps)
  {
    if dapps == [] then []
    else
      assert dapps == [dapps[0]] + dapps[1..];
      if dapps[0].id in ids then [dapps[0]] + KeepListed(dapps[1..], ids)
      else KeepListed(dapps[1..], ids)
  }
}
