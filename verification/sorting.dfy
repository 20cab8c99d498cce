/** The order `GlobalModel.profileList` sorts profiles in, and a sort by it. */
module Sorting {
  import opened Text
  import opened Profiles

  /** The sort key: the lower-cased display name. */
  function SortKey(p: Profile): string {
    Lower(p.displayName)
  }

  /** The comparator handed to `sorted(by:)`. */
  predicate Before(p: Profile, q: Profile): (r: bool)
    ensures r ==> p.displayName != q.displayName
    ensures r ==> !Less(SortKey(q), SortKey(p))
  {
    if Less(SortKey(p), SortKey(q)) then
      LessAsymmetric(SortKey(p), SortKey(q));
      true
    else false
  }

  /** Ascending by lower-cased display name: no profile comes after one it sorts before. */
  predicate SortedByName(s: seq<Profile>) {
    forall i, j | 0 <= i < j < |s| :: !Before(s[j], s[i])
  }

  /** Puts `p` into a sorted list, after every entry whose key is not greater. */
  function InsertByName(p: Profile, s: seq<Profile>): (r: seq<Profile>)
    requires SortedByName(s)
    ensures multiset(r) == multiset(s) + multiset{p}
    ensures SortedByName(r)
  {
    if s == [] then [p]
    else if Before(p, s[0]) then
      InsertedAtHead(p, s);
      [p] + s
    else
      var t := InsertByName(p, s[1..]);
      InsertedAfterHead(p, s, t);
      [s[0]] + t
  }

  lemma InsertedAtHead(p: Profile, s: seq<Profile>)
    requires s != [] && SortedByName(s) && Before(p, s[0])
    ensures SortedByName([p] + s)
  {
    forall j | 0 <= j < |s|
      ensures !Before(s[j], p)
    {
      if j > 0 {
        LessTotal(SortKey(s[0]), SortKey(s[j]));
        if SortKey(s[0]) != SortKey(s[j]) {
          LessTransitive(SortKey(p), SortKey(s[0]), SortKey(s[j]));
        }
      }
      LessAsymmetric(SortKey(p), SortKey(s[j]));
    }
  }

  lemma InsertedAfterHead(p: Profile, s: seq<Profile>, t: seq<Profile>)
    requires s != [] && SortedByName(s) && !Before(p, s[0])
    requires multiset(t) == multiset(s[1..]) + multiset{p} && SortedByName(t)
    ensures multiset([s[0]] + t) == multiset(s) + multiset{p}
    ensures SortedByName([s[0]] + t)
  {
    assert s == [s[0]] + s[1..];
    NothingBeforeHead(p, s, t);
    ConsSorted(s[0], t);
  }

  /** No entry of the tail built from `s[1..]` and `p` sorts before `s[0]`. */
  lemma NothingBeforeHead(p: Profile, s: seq<Profile>, t: seq<Profile>)
    requires s != [] && SortedByName(s) && !Before(p, s[0])
    requires multiset(t) == multiset(s[1..]) + multiset{p}
    ensures forall k | 0 <= k < |t| :: !Before(t[k], s[0])
  {
    forall k | 0 <= k < |t|
      ensures !Before(t[k], s[0])
    {
      assert t[k] in multiset(t);
      if t[k] != p {
        assert t[k] in multiset(s[1..]);
        var j :| 0 <= j < |s[1..]| && s[1..][j] == t[k];
        assert s[j + 1] == t[k];
      }
    }
  }

  lemma ConsSorted(h: Profile, t: seq<Profile>)
    requires SortedByName(t) && forall k | 0 <= k < |t| :: !Before(t[k], h)
    ensures SortedByName([h] + t)
  {
    var r := [h] + t;
    forall i, j | 0 <= i < j < |r|
      ensures !Before(r[j], r[i])
    {
      if i == 0 {
        assert r[j] == t[j - 1];
      } else {
        assert r[i] == t[i - 1] && r[j] == t[j - 1];
      }
    }
  }

  /** `sorted(by: { lowercased name < lowercased name })`: a permutation of the input in
      ascending order of lower-cased display name. */
  function SortByName(s: seq<Profile>): (r: seq<Profile>)
    ensures multiset(r) == multiset(s)
    ensures SortedByName(r)
  {
    if s == [] then []
    else
      assert s == [s[0]] + s[1..];
      InsertByName(s[0], SortByName(s[1..]))
  }
}
