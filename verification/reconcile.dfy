/** `GlobalModel.updateProfiles`: reconciling the profiles dictionary with a fresh list of
    core snapshots. Ids that disappeared are dropped, surviving ids keep their object and
    refresh it in place, unseen ids get a newly created object. */
module Reconcile {
  import opened Wrappers
  import opened Profiles

  /** The ids present in a list of snapshots (`Set(coreProfiles.map {$0.id})`). */
  function IdsOf(core: seq<CoreProfile>): (ids: set<ProfileId>)
    ensures |ids| <= |core|
  {
    if core == [] then {} else {core[0].id} + IdsOf(core[1..])
  }

  lemma {:induction false} IdsOfMembers(core: seq<CoreProfile>, id: ProfileId)
    ensures id in IdsOf(core) <==> exists i :: 0 <= i < |core| && core[i].id == id
  {
    if core != [] {
      IdsOfMembers(core[1..], id);
      if id in IdsOf(core[1..]) {
        var i :| 0 <= i < |core[1..]| && core[1..][i].id == id;
        assert core[i + 1].id == id;
      }
      if exists i :: 0 <= i < |core| && core[i].id == id {
        var i :| 0 <= i < |core| && core[i].id == id;
        if i > 0 {
          assert core[1..][i - 1].id == id;
        }
      }
    }
  }

  /** The last snapshot in the list carrying `id`: the one whose data survives the loop. */
  function Latest(core: seq<CoreProfile>, id: ProfileId): (r: Option<CoreProfile>)
    ensures r.Some? <==> id in IdsOf(core)
    ensures r.Some? ==> r.value.id == id
  {
    if core == [] then None
    else
      match Latest(core[1..], id)
      case Some(c) => Some(c)
      case None => if core[0].id == id then Some(core[0]) else None
  }

  /** `Latest` picks the snapshot at the last position that carries the id. */
  lemma {:induction false} LatestIsLast(core: seq<CoreProfile>, id: ProfileId)
    requires id in IdsOf(core)
    ensures exists i :: 0 <= i < |core| && core[i] == Latest(core, id).value
                        && forall j :: i < j < |core| ==> core[j].id != id
  {
    if id in IdsOf(core[1..]) {
      LatestIsLast(core[1..], id);
      var i :| 0 <= i < |core[1..]| && core[1..][i] == Latest(core[1..], id).value
                && forall j :: i < j < |core[1..]| ==> core[1..][j].id != id;
      assert core[i + 1] == Latest(core, id).value;
      assert forall j :: i + 1 < j < |core| ==> core[j].id == core[1..][j - 1].id;
    } else {
      IdsOfMembers(core[1..], id);
      assert forall j :: 0 < j < |core| ==> core[j].id == core[1..][j - 1].id;
    }
  }

  /** One iteration of the second loop: refresh the object filed under the snapshot's id,
      or create one and file it. */
  function ApplyOne(d: Directory, c: CoreProfile): (r: Directory)
    ensures r.byId.Keys == d.byId.Keys + {c.id}
    ensures forall id | id in d.byId && id != c.id :: r.byId[id] == d.byId[id]
    ensures Reflects(r.byId[c.id], c)
    ensures c.id in d.byId ==> r.byId[c.id].handle == d.byId[c.id].handle
                               && r.byId[c.id].id == d.byId[c.id].id && r.nextHandle == d.nextHandle
    ensures c.id !in d.byId ==> r.byId[c.id].handle == d.nextHandle
                                && r.byId[c.id].id == c.id && r.nextHandle == d.nextHandle + 1
  {
    if c.id in d.byId then
      Directory(d.byId[c.id := UpdateFromCore(d.byId[c.id], c)], d.nextHandle)
    else
      Directory(d.byId[c.id := FromCore(d.nextHandle, c)], d.nextHandle + 1)
  }

  /** The second loop of `updateProfiles`, over the snapshots in order. */
  function ApplyAll(d: Directory, core: seq<CoreProfile>): (r: Directory)
    ensures r.byId.Keys == d.byId.Keys + IdsOf(core)
    ensures r.nextHandle >= d.nextHandle
    decreases |core|
  {
    if core == [] then d else ApplyAll(ApplyOne(d, core[0]), core[1..])
  }

  /** Profiles filed before the loop are kept as the same objects under the same id. */
  lemma {:induction false} ApplyAllKeepsObjects(d: Directory, core: seq<CoreProfile>, id: ProfileId)
    requires id in d.byId
    ensures id in ApplyAll(d, core).byId
    ensures ApplyAll(d, core).byId[id].handle == d.byId[id].handle
    ensures ApplyAll(d, core).byId[id].id == d.byId[id].id
    decreases |core|
  {
    if core != [] {
      ApplyAllKeepsObjects(ApplyOne(d, core[0]), core[1..], id);
    }
  }

  /** A profile no snapshot mentions is left exactly as it was. */
  lemma {:induction false} ApplyAllUntouched(d: Directory, core: seq<CoreProfile>, id: ProfileId)
    requires id in d.byId && id !in IdsOf(core)
    ensures id in ApplyAll(d, core).byId && ApplyAll(d, core).byId[id] == d.byId[id]
    decreases |core|
  {
    if core != [] {
      ApplyAllUntouched(ApplyOne(d, core[0]), core[1..], id);
    }
  }

  /** A snapshot id that had no profile gets a new object allocated during the loop. */
  lemma {:induction false} ApplyAllFresh(d: Directory, core: seq<CoreProfile>, id: ProfileId)
    requires id in IdsOf(core) && id !in d.byId
    ensures id in ApplyAll(d, core).byId
    ensures d.nextHandle <= ApplyAll(d, core).byId[id].handle < ApplyAll(d, core).nextHandle
    ensures ApplyAll(d, core).byId[id].id == id
    decreases |core|
  {
    var d1 := ApplyOne(d, core[0]);
    if core[0].id == id {
      if id in IdsOf(core[1..]) {
        ApplyAllKeepsObjects(d1, core[1..], id);
      } else {
        ApplyAllUntouched(d1, core[1..], id);
      }
    } else {
      ApplyAllFresh(d1, core[1..], id);
    }
  }

  /** After the loop every mentioned profile shows the last snapshot carrying its id. */
  lemma {:induction false} ApplyAllShowsLatest(d: Directory, core: seq<CoreProfile>, id: ProfileId)
    requires id in IdsOf(core)
    ensures id in ApplyAll(d, core).byId
    ensures Reflects(ApplyAll(d, core).byId[id], Latest(core, id).value)
    decreases |core|
  {
    var d1 := ApplyOne(d, core[0]);
    if id in IdsOf(core[1..]) {
      ApplyAllShowsLatest(d1, core[1..], id);
    } else {
      ApplyAllUntouched(d1, core[1..], id);
    }
  }

  /** Set arithmetic behind `ApplyAllCount`: filing `x` removes it from the ids still unseen. */
  lemma UnseenStep(known: set<ProfileId>, x: ProfileId, ids: set<ProfileId>)
    ensures x in known ==> ({x} + ids) - known == ids - known
    ensures x !in known ==> |({x} + ids) - known| == |ids - (known + {x})| + 1
  {
    if x !in known {
      var later := ids - (known + {x});
      assert ({x} + ids) - known == later + {x};
    }
  }

  /** The loop allocates exactly one object per snapshot id that had no profile. */
  lemma {:induction false} ApplyAllCount(d: Directory, core: seq<CoreProfile>)
    ensures ApplyAll(d, core).nextHandle == d.nextHandle + |IdsOf(core) - d.byId.Keys|
    decreases |core|
  {
    if core != [] {
      var c := core[0];
      var d1 := ApplyOne(d, c);
      ApplyAllCount(d1, core[1..]);
      var ids := IdsOf(core[1..]);
      UnseenStep(d.byId.Keys, c.id, ids);
      assert IdsOf(core) == {c.id} + ids;
      assert ApplyAll(d, core) == ApplyAll(d1, core[1..]);
      if c.id in d.byId {
        assert d1.byId.Keys == d.byId.Keys && d1.nextHandle == d.nextHandle;
      } else {
        assert d1.byId.Keys == d.byId.Keys + {c.id} && d1.nextHandle == d.nextHandle + 1;
      }
    }
  }

  lemma ApplyOneDistinct(d: Directory, c: CoreProfile)
    requires DistinctObjects(d)
    ensures DistinctObjects(ApplyOne(d, c))
  {
  }

  /** The loop never files one object under two ids. */
  lemma {:induction false} ApplyAllDistinct(d: Directory, core: seq<CoreProfile>)
    requires DistinctObjects(d)
    ensures DistinctObjects(ApplyAll(d, core))
    decreases |core|
  {
    if core != [] {
      ApplyOneDistinct(d, core[0]);
      ApplyAllDistinct(ApplyOne(d, core[0]), core[1..]);
    }
  }

  /** Surviving ids keep their object: same identity, same id. */
  predicate KeepsSurvivors(d: Directory, core: seq<CoreProfile>, r: Directory) {
    forall id | id in d.byId && id in IdsOf(core) ::
      id in r.byId && r.byId[id].handle == d.byId[id].handle && r.byId[id].id == d.byId[id].id
  }

  /** Unseen ids get an object created after the old ones, filed under that id. */
  predicate CreatesNewcomers(d: Directory, core: seq<CoreProfile>, r: Directory) {
    forall id | id in IdsOf(core) && id !in d.byId ::
      id in r.byId && d.nextHandle <= r.byId[id].handle < r.nextHandle && r.byId[id].id == id
  }

  /** Every remaining profile shows the last snapshot that carries its id. */
  predicate ShowsLatest(core: seq<CoreProfile>, r: Directory) {
    forall id | id in IdsOf(core) :: id in r.byId && Reflects(r.byId[id], Latest(core, id).value)
  }

  /** The first loop of `updateProfiles`: remove every id not among `ids`. */
  function Retain(d: Directory, ids: set<ProfileId>): (r: Directory)
    ensures r.byId.Keys == d.byId.Keys * ids
    ensures forall id | id in r.byId :: r.byId[id] == d.byId[id]
    ensures r.nextHandle == d.nextHandle
    ensures Valid(d) ==> Valid(r)
  {
    Directory(map id | id in d.byId && id in ids :: d.byId[id], d.nextHandle)
  }

  /** `updateProfiles`: first drop the ids absent from the snapshots, then apply them in order. */
  function UpdateProfiles(d: Directory, core: seq<CoreProfile>): (r: Directory)
    ensures r.byId.Keys == IdsOf(core)
    ensures KeepsSurvivors(d, core, r)
    ensures CreatesNewcomers(d, core, r)
    ensures r.nextHandle == d.nextHandle + |IdsOf(core) - d.byId.Keys|
    ensures ShowsLatest(core, r)
    ensures Valid(d) ==> Valid(r)
  {
    var kept := Retain(d, IdsOf(core));
    var r := ApplyAll(kept, core);
    ApplyAllCount(kept, core);
    assert IdsOf(core) - kept.byId.Keys == IdsOf(core) - d.byId.Keys;
    SurvivorsAndNewcomers(d, core, kept);
    ValidityPreserved(d, core, kept);
    r
  }

  lemma SurvivorsAndNewcomers(d: Directory, core: seq<CoreProfile>, kept: Directory)
    requires kept == Retain(d, IdsOf(core))
    ensures KeepsSurvivors(d, core, ApplyAll(kept, core))
    ensures CreatesNewcomers(d, core, ApplyAll(kept, core))
    ensures ShowsLatest(core, ApplyAll(kept, core))
  {
    var r := ApplyAll(kept, core);
    forall id | id in d.byId && id in IdsOf(core)
      ensures id in r.byId && r.byId[id].handle == d.byId[id].handle && r.byId[id].id == d.byId[id].id
    {
      ApplyAllKeepsObjects(kept, core, id);
    }
    forall id | id in IdsOf(core) && id !in d.byId
      ensures id in r.byId && d.nextHandle <= r.byId[id].handle < r.nextHandle && r.byId[id].id == id
    {
      ApplyAllFresh(kept, core, id);
    }
    forall id | id in IdsOf(core)
      ensures id in r.byId && Reflects(r.byId[id], Latest(core, id).value)
    {
      ApplyAllShowsLatest(kept, core, id);
    }
  }

  lemma ValidityPreserved(d: Directory, core: seq<CoreProfile>, kept: Directory)
    requires kept == Retain(d, IdsOf(core))
    ensures Valid(d) ==> Valid(ApplyAll(kept, core))
  {
    if Valid(d) {
      SurvivorsAndNewcomers(d, core, kept);
      ApplyAllDistinct(kept, core);
      NewcomersWellKeyed(d, core, ApplyAll(kept, core));
    }
  }

  /** Survivors keep their ids and newcomers are filed under their own, so a well-keyed
      dictionary stays well keyed. */
  lemma NewcomersWellKeyed(d: Directory, core: seq<CoreProfile>, r: Directory)
    requires WellKeyed(d.byId) && r.byId.Keys == IdsOf(core)
    requires KeepsSurvivors(d, core, r) && CreatesNewcomers(d, core, r)
    ensures WellKeyed(r.byId)
  {

  }

  /** A directory that already holds exactly the snapshots' ids, each showing its latest
      snapshot, is left as it is: no object is replaced or created and no profile changes. */
  lemma UpdateProfilesFixedPoint(d: Directory, core: seq<CoreProfile>)
    requires d.byId.Keys == IdsOf(core) && ShowsLatest(core, d)
    ensures UpdateProfiles(d, core) == d
  {

  }

  /** Reconciling twice with the same snapshots changes nothing the second time. */
  lemma UpdateProfilesIdempotent(d: Directory, core: seq<CoreProfile>)
    ensures UpdateProfiles(UpdateProfiles(d, core), core) == UpdateProfiles(d, core)
  {
    UpdateProfilesFixedPoint(UpdateProfiles(d, core), core);
  }

  /** A profile survives reconciliation exactly when some snapshot carries its id. */
  lemma UpdateProfilesDropsVanished(d: Directory, core: seq<CoreProfile>, id: ProfileId)
    ensures id in UpdateProfiles(d, core).byId <==> exists i :: 0 <= i < |core| && core[i].id == id
  {
    IdsOfMembers(core, id);
  }
}
