/** The records the app's view model keeps per profile, and the two conversions
    from the core's snapshots that `GlobalModel` relies on. */
module Profiles {

  type ProfileId = string
  type DappId = string

  /** A dapp as listed under a profile; only what the model inspects is kept. */
  datatype Dapp = Dapp(id: DappId, humanIdentifier: string)

  /** The core's snapshot of one profile (`CoreProfile`). */
  datatype CoreProfile = CoreProfile(id: ProfileId, name: string, dapps: seq<Dapp>)

  /** The app-side `Profile` object. `Profile` is a Swift class, so two entries are
      the same object exactly when their `handle` (the object's identity) agrees. */
  datatype Profile = Profile(handle: nat, id: ProfileId, displayName: string, dappList: seq<Dapp>)

  /** A new profile object with identity `handle`, built from a snapshot (`Profile.fromCore`). */
  function FromCore(handle: nat, c: CoreProfile): (p: Profile)
    ensures p.handle == handle && p.id == c.id && Reflects(p, c)
  {
    Profile(handle, c.id, c.name, c.dapps)
  }

  /** The same object refreshed in place from a snapshot (`updateFromCore`): its identity and
      its id are kept, the rest is taken from the snapshot. */
  function UpdateFromCore(p: Profile, c: CoreProfile): (q: Profile)
    ensures q.handle == p.handle && q.id == p.id && Reflects(q, c)
  {
    p.(displayName := c.name, dappList := c.dapps)
  }

  /** The profile shows what the snapshot says. */
  predicate Reflects(p: Profile, c: CoreProfile) {
    p.displayName == c.name && p.dappList == c.dapps
  }

  /** The profiles dictionary (`[String: Profile]`) together with the allocator of object
      identities: every object created so far has a handle below `nextHandle`. */
  datatype Directory = Directory(byId: map<ProfileId, Profile>, nextHandle: nat)

  /** Each profile is filed under its own id. */
  predicate WellKeyed(byId: map<ProfileId, Profile>) {
    forall id | id in byId :: byId[id].id == id
  }

  /** No object is filed under two ids, and every object was allocated before `nextHandle`. */
  predicate DistinctObjects(d: Directory) {
    && (forall id | id in d.byId :: d.byId[id].handle < d.nextHandle)
    && (forall id1, id2 | id1 in d.byId && id2 in d.byId && id1 != id2 ::
          d.byId[id1].handle != d.byId[id2].handle)
  }

  predicate Valid(d: Directory) {
    WellKeyed(d.byId) && DistinctObjects(d)
  }
}
