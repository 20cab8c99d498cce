/** The state-changing operations of the app's `GlobalModel` view model, with the calls into
    the core replaced by their results, passed in as parameters (`None` where the call
    failed and the Swift code caught the error). */
module GlobalModel {
  import opened Wrappers
  import opened Profiles
  import Reconcile
  import opened Views

  /** The part of `GlobalModel` this model follows: the profiles dictionary (with the
      identities of its objects), the active profile id, the top dapps and the backup flag. */
  datatype State = State(
    dir: Directory,
    activeProfileId: Option<ProfileId>,
    topDapps: seq<Dapp>,
    backupEnabled: bool)

  /** `Dictionary(uniqueKeysWithValues:)` traps when two entries share a key. */
  datatype InitError = DuplicateProfileId

  predicate HasDuplicateIds(ps: seq<Profile>) {
    exists i, j :: 0 <= i < j < |ps| && ps[i].id == ps[j].id
  }

  /** The dictionary built from a list of profiles, keyed by id. */
  function IndexById(ps: seq<Profile>): (r: Result<map<ProfileId, Profile>, InitError>)
    ensures r.Failure? <==> HasDuplicateIds(ps)
    ensures r.Success? ==> forall i | 0 <= i < |ps| :: ps[i].id in r.value && r.value[ps[i].id] == ps[i]
    ensures r.Success? ==> forall id | id in r.value :: exists i :: 0 <= i < |ps| && ps[i].id == id
    ensures r.Success? ==> WellKeyed(r.value)
  {
    if ps == [] then Success(map[])
    else
      var tail := IndexById(ps[1..]);
      assert forall i | 1 <= i < |ps| :: ps[i] == ps[1..][i - 1];
      if tail.Failure? then
        assert HasDuplicateIds(ps) by {
          var i, j :| 0 <= i < j < |ps[1..]| && ps[1..][i].id == ps[1..][j].id;
          assert ps[i + 1].id == ps[j + 1].id;
        }
        Failure(DuplicateProfileId)
      else if ps[0].id in tail.value then
        var j :| 0 <= j < |ps[1..]| && ps[1..][j].id == ps[0].id;
        assert ps[j + 1].id == ps[0].id;
        Failure(DuplicateProfileId)
      else
        assert !HasDuplicateIds(ps) by {
          forall i, j | 0 <= i < j < |ps|
            ensures ps[i].id != ps[j].id
          {
            if i == 0 {
              assert ps[j].id in tail.value;
            } else {
              assert ps[1..][i - 1].id != ps[1..][j - 1].id;
            }
          }
        }
        Success(tail.value[ps[0].id := ps[0]])
  }

  /** One more than the largest identity among the profiles: the next identity to allocate. */
  function HandleBound(ps: seq<Profile>): (n: nat)
    ensures forall i | 0 <= i < |ps| :: ps[i].handle < n
  {
    if ps == [] then 0
    else
      var n := HandleBound(ps[1..]);
      assert forall i | 1 <= i < |ps| :: ps[i] == ps[1..][i - 1];
      if ps[0].handle < n then n else ps[0].handle + 1
  }

  /** Entries with the same identity are the same object, so they agree on everything. */
  predicate Coherent(ps: seq<Profile>) {
    forall i, j | 0 <= i < |ps| && 0 <= j < |ps| :: ps[i].handle == ps[j].handle ==> ps[i] == ps[j]
  }

  /** `init(core:profiles:activeProfileId:callbackModel:)`. */
  function Init(ps: seq<Profile>, activeProfileId: Option<ProfileId>): (r: Result<State, InitError>)
    ensures r.Failure? <==> HasDuplicateIds(ps)
    ensures r.Success? ==> forall i | 0 <= i < |ps| :: ps[i].id in r.value.dir.byId && r.value.dir.byId[ps[i].id] == ps[i]
    ensures r.Success? ==> forall id | id in r.value.dir.byId :: exists i :: 0 <= i < |ps| && ps[i].id == id
    ensures r.Success? ==> r.value.activeProfileId == activeProfileId && r.value.topDapps == [] && !r.value.backupEnabled
    ensures r.Success? && Coherent(ps) ==> Valid(r.value.dir)
  {
    match IndexById(ps)
    case Failure(e) => Failure(e)
    case Success(byId) =>
      var d := Directory(byId, HandleBound(ps));
      Success(State(d, activeProfileId, [], false))
  }

  /** `fetchTopDapps(limit:)`: the active profile's dapps whose ids the core ranks among its
      top dapps, in the profile's order; nothing when the call failed or no profile is active. */
  method FetchTopDapps(s: State, fetched: Option<seq<DappId>>) returns (r: seq<Dapp>)
    ensures fetched.None? ==> r == []
    ensures forall d | d in r :: fetched.Some? && d.id in fetched.value
    ensures WellKeyed(s.dir.byId) && Lookup(s.dir.byId, s.activeProfileId).None? ==> r == []
    ensures WellKeyed(s.dir.byId) && Lookup(s.dir.byId, s.activeProfileId).Some? ==>
              r == KeepListed(Lookup(s.dir.byId, s.activeProfileId).value.dappList, fetched.GetOr([]))
  {
    var active := ActiveProfile(s.dir.byId, s.activeProfileId);
    var ids := fetched.GetOr([]);
    match active {
      case None => r := [];
      case Some(p) =>
        r := KeepListed(p.dappList, ids);
        forall d | d in r
          ensures fetched.Some? && d.id in fetched.value
        {
          assert d in multiset(r);
        }
    }
  }

  /** `refreshProfiles()`: the profile list replaces the dictionary's contents only when it was
      fetched, the active id is overwritten only when one was fetched, and the backup flag and
      top dapps are recomputed from the result. */
  method RefreshProfiles(
    s: State,
    listed: Option<seq<CoreProfile>>,
    fetchedActiveId: Option<ProfileId>,
    fetchedBackupEnabled: Option<bool>,
    fetchedTopDappIds: Option<seq<DappId>>)
    returns (r: State)
    ensures listed.None? ==> r.dir == s.dir
    ensures listed.Some? ==> r.dir == Reconcile.UpdateProfiles(s.dir, listed.value)
    ensures listed.Some? ==> r.dir.byId.Keys == Reconcile.IdsOf(listed.value)
    ensures r.activeProfileId == if fetchedActiveId.Some? then fetchedActiveId else s.activeProfileId
    ensures r.backupEnabled == fetchedBackupEnabled.GetOr(false)
    ensures forall d | d in r.topDapps :: fetchedTopDappIds.Some? && d.id in fetchedTopDappIds.value
    ensures WellKeyed(r.dir.byId) && Lookup(r.dir.byId, r.activeProfileId).None? ==> r.topDapps == []
    ensures WellKeyed(r.dir.byId) && Lookup(r.dir.byId, r.activeProfileId).Some? ==>
              r.topDapps == KeepListed(Lookup(r.dir.byId, r.activeProfileId).value.dappList, fetchedTopDappIds.GetOr([]))
    ensures Valid(s.dir) ==> Valid(r.dir)
  {
    var dir := s.dir;
    if listed.Some? {
      dir := Reconcile.UpdateProfiles(s.dir, listed.value);
    }
    var activeId := s.activeProfileId;
    if fetchedActiveId.Some? {
      activeId := fetchedActiveId;
    }
    r := State(dir, activeId, s.topDapps, fetchedBackupEnabled.GetOr(false));
    var top := FetchTopDapps(r, fetchedTopDappIds);
    r := r.(topDapps := top);
  }

  type Path = string

  /** What the recovery flow is started with. */
  datatype RecoveryModel = RecoveryModel(backupDir: Path)

  /** `shouldRestoreBackup()`, with the file system given as the set of existing paths and the
      iCloud backup directory as an optional path (absent when the user is not signed in). */
  function ShouldRestoreBackup(existing: set<Path>, dbFilePath: Path, backupDir: Option<Path>)
    : (r: Option<RecoveryModel>)
    ensures r.Some? <==> dbFilePath !in existing && backupDir.Some? && backupDir.value in existing
    ensures r.Some? ==> r.value.backupDir == backupDir.value
  {
    if dbFilePath in existing then None
    else
      match backupDir
      case Some(dir) => if dir !in existing then None else Some(RecoveryModel(dir))
      case None => None
  }
}
