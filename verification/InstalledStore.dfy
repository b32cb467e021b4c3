// The engine store that installations leave behind is one that the registry can trust.
module InstalledStore {
  import opened Options
  import opened Sequences
  import opened EngineStore
  import Doctor
  import P = EnginePack
  import R = EngineRegistry

  predicate IsPlain(name: string) {
    '/' !in name
  }

  predicate IsPlainPlace(place: P.Place) {
    IsPlain(place.engineId) && IsPlain(place.version) && IsPlain(place.manifestSha256)
  }

  lemma SplitAtSlash(a: string, b: string, r: string, s: string)
    requires IsPlain(a) && IsPlain(b) && a + ("/" + r) == b + ("/" + s)
    ensures a == b && r == s
  {
    SplitUnique(c => c != '/', a, b, "/" + r, "/" + s);
    assert r == ("/" + r)[1..] && s == ("/" + s)[1..];
  }

  /** Different places have different manifest paths. */
  lemma PathOfInjective(a: P.Place, b: P.Place)
    requires IsPlainPlace(a) && IsPlainPlace(b) && P.PathOf(a) == P.PathOf(b)
    ensures a == b
  {
    var r2, s2 := a.manifestSha256 + ("/" + "manifest.json"), b.manifestSha256 + ("/" + "manifest.json");
    var r1, s1 := a.version + ("/" + r2), b.version + ("/" + s2);
    var r0, s0 := a.engineId + ("/" + r1), b.engineId + ("/" + s1);
    assert P.PathOf(a) == "store/" + r0 && P.PathOf(b) == "store/" + s0;
    assert r0 == P.PathOf(a)[6..] && s0 == P.PathOf(b)[6..];
    SplitAtSlash(a.engineId, b.engineId, r1, s1);
    SplitAtSlash(a.version, b.version, r2, s2);
    SplitAtSlash(a.manifestSha256, b.manifestSha256, "manifest.json", "manifest.json");
  }

  type Published = map<P.Place, P.Directory>

  /** What verification finds under a path: the published pack, if there is one there. */
  ghost function PackAt(w: P.World, published: Published, path: Path): Option<Doctor.Pack> {
    if place :| place in published && P.PathOf(place) == path && w.Verifies(published[place])
    then Some(w.PackAt(place, published[place]))
    else None
  }

  /** All directory names in a listing are single names. */
  predicate IsPlainListing(listing: seq<VersionEntry>) {
    forall i :: 0 <= i < |listing| ==>
      IsPlain(listing[i].name) && forall k :: 0 <= k < |listing[i].hashes| ==> IsPlain(listing[i].hashes[k].name)
  }

  /** An installed version stands under its own engine and version. */
  lemma InstalledHasPlace(engineId: string, listing: seq<VersionEntry>, x: Installed)
    requires IsPlainListing(listing) && x in Found(engineId, listing)
    ensures exists hash :: IsPlain(hash) && IsPlain(x.version) && x.manifestPath == P.PathOf(P.Place(engineId, x.version, hash))
  {
    assert listing[..|listing|] == listing;
    FoundAre(engineId, listing, |listing|, x);
    var i, k :| IsInstalledAt(listing, i, k) && x == InstalledAt(engineId, listing, i, k);
    assert IsInstalledAt(listing, i, k);
    assert x.manifestPath == P.PathOf(P.Place(engineId, x.version, listing[i].hashes[k].name));
  }

  /** The registry's world: verification sees what is published, and nothing else is
      known of it. */
  ghost predicate Sees(world: R.World, w: P.World, published: Published) {
    && (forall path :: world.verify(path) == PackAt(w, published, path))
    && (forall id :: world.listing(id).Some? ==> IsPlain(id) && IsPlainListing(world.listing(id).value))
  }

  lemma PackHasPlace(w: P.World, s: P.State, place: P.Place)
    requires P.Faithful(w, s) && forall p :: p in s.published ==> IsPlainPlace(p)
    requires IsPlainPlace(place) && PackAt(w, s.published, P.PathOf(place)).Some?
    ensures PackAt(w, s.published, P.PathOf(place)).value.engineId == place.engineId
    ensures PackAt(w, s.published, P.PathOf(place)).value.version == place.version
  {
    forall p | p in s.published && P.PathOf(p) == P.PathOf(place) ensures p == place {
      PathOfInjective(p, place);
    }
  }

  /** What an installation can activate is what the registry can activate later. */
  lemma RegistryActivatesAlike(w: P.World, published: Published, world: R.World, paths: Doctor.Paths, place: P.Place)
    requires Sees(world, w, published) && world.isExecutable == w.isExecutable
    requires forall p :: p in published ==> IsPlainPlace(p)
    requires place in published && w.Verifies(published[place])
    ensures world.verify(P.PathOf(place)) == Some(w.PackAt(place, published[place]))
    ensures world.Activates(paths, P.PathOf(place)) <==> w.Activates(paths, place, published[place])
  {
    forall p | p in published && P.PathOf(p) == P.PathOf(place) ensures p == place {
      PathOfInjective(p, place);
    }
  }

  /** After any history of installations from unchanged sources, the store is honest: what
      stands under an engine and a version is a pack of that engine and version. */
  lemma InstallationsAreHonest(w: P.World, s: P.State, events: seq<P.Event>, world: R.World)
    requires P.Starts(s) && P.Faithful(w, s) && P.NoEdits(events)
    requires forall place :: place in P.Run(w, s, events).published ==> IsPlainPlace(place)
    requires Sees(world, w, P.Run(w, s, events).published)
    ensures R.HonestStore(world)
  {
    P.PublishedUnderItsOwnName(w, s, events);
    var now := P.Run(w, s, events);
    forall id, i | 0 <= i < |world.Candidates(id)| && world.verify(world.Candidates(id)[i].manifestPath).Some?
      ensures world.verify(world.Candidates(id)[i].manifestPath).value.engineId == id
      ensures world.verify(world.Candidates(id)[i].manifestPath).value.version == world.Candidates(id)[i].version
    {
      var x, listing := world.Candidates(id)[i], world.listing(id).value;
      NewestFirst(id, listing, 0, 0, x);
      LastIsFound(Found(id, listing), KeyOf(x));
      InstalledHasPlace(id, listing, x);
      var hash :| IsPlain(hash) && IsPlain(x.version) && x.manifestPath == P.PathOf(P.Place(id, x.version, hash));
      PackHasPlace(w, now, P.Place(id, x.version, hash));
    }
  }
}
