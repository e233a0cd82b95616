// internal/config/snapshot.go: the builder, and the object it freezes.
module Snapshots {
  import opened Core
  import opened Merge
  import opened Build
  import opened Resolver

  /** One flag object holds `view`, out of objects in `repr`. */
  ghost predicate HoldsFlag(f: FlagObject, view: Flag, repr: set<object>)
    reads repr
  {
    && f in repr && f.rules.Repr() <= repr && (f.rollout != null ==> f.rollout in repr)
    && f.View() == view
  }

  /** The flag objects hold `views`, out of objects in `repr`. */
  ghost predicate Hold(flags: map<string, FlagObject>, views: map<string, Flag>, repr: set<object>)
    reads repr
  {
    flags.Keys == views.Keys && forall k | k in flags :: HoldsFlag(flags[k], views[k], repr)
  }

  lemma HoldsFlagGrows(f: FlagObject, view: Flag, repr: set<object>, more: set<object>)
    requires HoldsFlag(f, view, repr)
    ensures HoldsFlag(f, view, repr + more)
  {
  }

  lemma HoldGrows(flags: map<string, FlagObject>, views: map<string, Flag>, repr: set<object>,
                  f: FlagObject, view: Flag, own: set<object>)
    requires Hold(flags, views, repr) && HoldsFlag(f, view, own)
    ensures Hold(flags[view.key := f], views[view.key := view], repr + own)
  {
    forall k | k in flags ensures HoldsFlag(flags[k], views[k], repr + own) {
      HoldsFlagGrows(flags[k], views[k], repr, own);
    }
  }

  /**
   * One environment's published view. `content` is what it held when it was published;
   * `Frozen` says that its objects hold it still.
   */
  class SnapshotObject {
    const flags: map<string, FlagObject>
    const generation: int
    const provenance: map<string, Provenance>
    const quarantined: set<string>
    ghost const content: Snapshot
    ghost const repr: set<object>

    ghost predicate Frozen()
      reads repr
    {
      && Hold(flags, content.flags, repr)
      && generation == content.generation && provenance == content.provenance
      && quarantined == content.quarantined
    }

    /** What subscribers can tell apart; a content hash in the source. */
    function Fingerprint(): (flags: map<string, Flag>)
      requires Frozen()
      reads repr
      ensures flags == content.flags
    {
      assert forall k | k in this.flags :: HoldsFlag(this.flags[k], content.flags[k], repr);
      map k | k in this.flags :: this.flags[k].View()
    }

    constructor (env: string, generation: int, builtAt: int, flags: map<string, FlagObject>,
                 provenance: map<string, Provenance>, quarantined: set<string>,
                 ghost views: map<string, Flag>, ghost repr: set<object>)
      requires Hold(flags, views, repr)
      ensures Frozen() && this.repr == repr
      ensures content == Snapshot(env, generation, builtAt, views, provenance, quarantined)
    {
      this.flags, this.generation := flags, generation;
      this.provenance, this.quarantined := provenance, quarantined;
      this.content := Snapshot(env, generation, builtAt, views, provenance, quarantined);
      this.repr := repr;
    }
  }

  ghost function ContentOf(s: SnapshotObject?): Option<Snapshot> {
    if s == null then None else Some(s.content)
  }

  /** Writing other objects leaves a frozen snapshot frozen. */
  twostate lemma StaysFrozen(s: SnapshotObject?)
    requires s != null ==> old(s.Frozen()) && unchanged(s.repr)
    ensures s != null ==> s.Frozen()
  {
  }

  class SnapshotBuilder {
    const env: string
    var flags: map<string, FlagObject>
    var provenance: map<string, Provenance>
    var quarantined: set<string>
    ghost var views: map<string, Flag>
    ghost var repr: set<object>

    ghost predicate Valid()
      reads this, repr
    {
      this !in repr && Hold(flags, views, repr)
    }

    constructor (env: string)
      ensures Valid() && repr == {} && views == map[] && provenance == map[] && quarantined == {}
      ensures this.env == env
    {
      this.env := env;
      flags, provenance, quarantined, views, repr := map[], map[], {}, map[], {};
    }

    method Add(f: FlagObject, prov: Provenance, ghost view: Flag, ghost own: set<object>)
      requires Valid() && HoldsFlag(f, view, own) && this !in own
      modifies `flags, `provenance, `views, `repr
      ensures Valid() && repr == old(repr) + own
      ensures views == old(views)[view.key := view] && provenance == old(provenance)[view.key := prov]
    {
      HoldGrows(flags, views, repr, f, view, own);
      Store(flags[f.key := f], provenance[f.key := prov], views[view.key := view], repr + own);
    }

    method Store(flags: map<string, FlagObject>, provenance: map<string, Provenance>,
                 ghost views: map<string, Flag>, ghost repr: set<object>)
      requires this !in repr && Hold(flags, views, repr)
      modifies `flags, `provenance, `views, `repr
      ensures this.flags == flags && this.provenance == provenance && this.views == views && this.repr == repr
      ensures Valid()
    {
      this.flags, this.provenance := flags, provenance;
      this.views, this.repr := views, repr;
    }

    method AddQuarantined(f: FlagObject, prov: Provenance, ghost view: Flag, ghost own: set<object>)
      requires Valid() && HoldsFlag(f, view, own) && this !in own
      modifies this
      ensures Valid() && repr == old(repr) + own
      ensures views == old(views)[view.key := view] && provenance == old(provenance)[view.key := prov]
      ensures quarantined == old(quarantined) + {view.key}
    {
      Add(f, prov, view, own);
      quarantined := quarantined + {f.key};
    }

    /** Counted even when there is no last good version to carry. */
    method MarkQuarantined(key: string)
      requires Valid()
      modifies this`quarantined
      ensures Valid() && quarantined == old(quarantined) + {key}
    {
      quarantined := quarantined + {key};
    }

    method Freeze(generation: int, at: int) returns (s: SnapshotObject)
      requires Valid()
      ensures fresh(s) && s.Frozen() && s.repr == repr
      ensures s.content == Snapshot(env, generation, at, views, provenance, quarantined)
    {
      s := new SnapshotObject(env, generation, at, flags, provenance, quarantined, views, repr);
    }
  }
}
