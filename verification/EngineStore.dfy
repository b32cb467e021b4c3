// The installed versions of an engine, derived from its store directory.
module EngineStore {
  import opened Options
  import opened Strings
  import opened Versions

  type Path = string

  datatype HashEntry = HashEntry(name: string, hasManifest: bool)

  datatype VersionEntry = VersionEntry(name: string, isDirectory: bool, hashes: seq<HashEntry>)

  datatype Installed = Installed(engineId: string, version: string, hash: string, manifestPath: Path)

  datatype Key = Key(version: VersionKey, hash: string)

  predicate IsHash(name: string) {
    |name| == 64 && forall i :: 0 <= i < |name| ==> IsHexDigit(name[i])
  }

  /** A staging directory that an interrupted installation left behind does not
      count as a version. */
  lemma PartialIsNoHash(hash: string, id: string)
    ensures !IsHash("." + hash + "." + id + ".partial")
  {
    assert ("." + hash + "." + id + ".partial")[0] == '.';
  }

  function ManifestPath(engineId: string, version: string, hash: string): Path {
    "store/" + engineId + "/" + version + "/" + hash + "/manifest.json"
  }

  function ToInstalled(engineId: string, version: string, hash: HashEntry): Installed {
    Installed(engineId, version, ToLower(hash.name), ManifestPath(engineId, version, hash.name))
  }

  function KeyOf(i: Installed): Key {
    Key(Parse(i.version), i.hash)
  }

  predicate KeyLess(a: Key, b: Key) {
    VersionLess(a.version, b.version) || (a.version == b.version && a.hash != b.hash && Below(a.hash, b.hash))
  }

  lemma KeysTotal(a: Key, b: Key)
    ensures KeyLess(a, b) || a == b || KeyLess(b, a)
    ensures !(KeyLess(a, b) && KeyLess(b, a)) && !KeyLess(a, a)
  {
    VersionsTotal(a.version, b.version);
    VersionsTotal(a.version, a.version);
    BelowTotal(a.hash, b.hash);
    if Below(a.hash, b.hash) && Below(b.hash, a.hash) { BelowAntisymmetric(a.hash, b.hash); }
  }

  lemma KeysTransitive(a: Key, b: Key, c: Key)
    requires KeyLess(a, b) && KeyLess(b, c)
    ensures KeyLess(a, c)
  {
    if VersionLess(a.version, b.version) && VersionLess(b.version, c.version) {
      VersionsTransitive(a.version, b.version, c.version);
    } else if a.version == b.version == c.version {
      BelowTransitive(a.hash, b.hash, c.hash);
      if a.hash == c.hash { BelowAntisymmetric(a.hash, b.hash); }
    }
  }

  /** `BTreeMap::insert`: entries stay in ascending key order, one per key. */
  function Put(entries: seq<Installed>, e: Installed): seq<Installed> {
    if entries == [] then [e]
    else if KeyOf(e) == KeyOf(entries[0]) then [e] + entries[1..]
    else if KeyLess(KeyOf(e), KeyOf(entries[0])) then [e] + entries
    else [entries[0]] + Put(entries[1..], e)
  }

  function PutAll(found: seq<Installed>): seq<Installed> {
    if found == [] then [] else Put(PutAll(found[..|found| - 1]), found[|found| - 1])
  }

  predicate Ascending(entries: seq<Installed>) {
    forall i, k :: 0 <= i < k < |entries| ==> KeyLess(KeyOf(entries[i]), KeyOf(entries[k]))
  }

  function Reverse<T>(s: seq<T>): (r: seq<T>)
    ensures |r| == |s| && forall i :: 0 <= i < |s| ==> r[i] == s[|s| - 1 - i]
  {
    if s == [] then [] else [s[|s| - 1]] + Reverse(s[..|s| - 1])
  }

  function FoundIn(engineId: string, version: string, hashes: seq<HashEntry>): seq<Installed> {
    if hashes == [] then []
    else
      var hash := hashes[|hashes| - 1];
      var before := FoundIn(engineId, version, hashes[..|hashes| - 1]);
      if IsHash(hash.name) && hash.hasManifest then before + [ToInstalled(engineId, version, hash)] else before
  }

  /** Everything that counts as an installed version, in directory order. */
  function Found(engineId: string, listing: seq<VersionEntry>): seq<Installed> {
    if listing == [] then []
    else
      var entry := listing[|listing| - 1];
      var before := Found(engineId, listing[..|listing| - 1]);
      if entry.isDirectory then before + FoundIn(engineId, entry.name, entry.hashes) else before
  }

  /** The newest version first. */
  function InstalledList(engineId: string, listing: seq<VersionEntry>): seq<Installed> {
    Reverse(PutAll(Found(engineId, listing)))
  }

  /** Directory `k` of version directory `i` is an installed version: its name consists of
      64 hexadecimal digits, and it holds a manifest. */
  predicate IsInstalledAt(listing: seq<VersionEntry>, i: int, k: int) {
    && 0 <= i < |listing| && listing[i].isDirectory && 0 <= k < |listing[i].hashes|
    && var hash := listing[i].hashes[k];
    && hash.hasManifest && |hash.name| == 64 && forall c :: c in hash.name ==> c in "0123456789abcdefABCDEF"
  }

  /** What is listed for it. */
  function InstalledAt(engineId: string, listing: seq<VersionEntry>, i: int, k: int): Installed
    requires IsInstalledAt(listing, i, k)
  {
    var version, name := listing[i].name, listing[i].hashes[k].name;
    Installed(engineId, version, ToLower(name), "store/" + engineId + "/" + version + "/" + name + "/manifest.json")
  }

  lemma HashIsHex(name: string)
    ensures IsHash(name) <==> |name| == 64 && forall c :: c in name ==> c in "0123456789abcdefABCDEF"
  {
    forall c: char ensures IsHexDigit(c) <==> c in "0123456789abcdefABCDEF" { HexDigits(c); }
    if IsHash(name) {
      forall c | c in name ensures IsHexDigit(c) {
        var i :| 0 <= i < |name| && name[i] == c;
      }
    }
  }

  lemma {:induction false} FoundInAre(engineId: string, listing: seq<VersionEntry>, i: nat, hashes: seq<HashEntry>, x: Installed)
    requires i < |listing| && listing[i].isDirectory && hashes <= listing[i].hashes
    ensures x in FoundIn(engineId, listing[i].name, hashes) <==>
              exists k :: 0 <= k < |hashes| && IsInstalledAt(listing, i, k) && x == InstalledAt(engineId, listing, i, k)
  {
    if hashes == [] {
    } else {
      var n := |hashes| - 1;
      FoundInAre(engineId, listing, i, hashes[..n], x);
      HashIsHex(hashes[n].name);
      assert listing[i].hashes[n] == hashes[n];
      assert IsHash(hashes[n].name) && hashes[n].hasManifest <==> IsInstalledAt(listing, i, n);
      assert IsInstalledAt(listing, i, n) ==> ToInstalled(engineId, listing[i].name, hashes[n]) == InstalledAt(engineId, listing, i, n);
    }
  }

  /** What counts as installed: exactly the directories named by a hash, with a manifest, in
      a version directory. */
  lemma {:induction false} FoundAre(engineId: string, listing: seq<VersionEntry>, n: nat, x: Installed)
    requires n <= |listing|
    ensures x in Found(engineId, listing[..n]) <==>
              exists i, k :: i < n && IsInstalledAt(listing, i, k) && x == InstalledAt(engineId, listing, i, k)
  {
    if n == 0 {
    } else {
      var entry := listing[n - 1];
      assert listing[..n][..n - 1] == listing[..n - 1];
      FoundAre(engineId, listing, n - 1, x);
      if entry.isDirectory { FoundInAre(engineId, listing, n - 1, entry.hashes, x); }
    }
  }

  lemma PutAllSnoc(before: seq<Installed>, here: seq<Installed>, found: Installed)
    ensures PutAll(before + (here + [found])) == Put(PutAll(before + here), found)
  {
    var all := before + (here + [found]);
    assert all[..|all| - 1] == before + here;
  }

  lemma {:induction false} PutMembers(entries: seq<Installed>, e: Installed, x: Installed)
    requires Ascending(entries)
    ensures x in Put(entries, e) <==> x == e || (x in entries && KeyOf(x) != KeyOf(e))
  {
    if entries == [] {
    } else {
      var first, rest := entries[0], entries[1..];
      assert entries == [first] + rest;
      KeysTotal(KeyOf(first), KeyOf(first));
      if KeyOf(e) == KeyOf(first) {
        assert x in rest ==> KeyOf(x) != KeyOf(first);
      } else if KeyLess(KeyOf(e), KeyOf(first)) {
        SmallestIsNew(entries, e);
      } else {
        PutMembers(rest, e, x);
      }
    }
  }

  lemma SmallestIsNew(entries: seq<Installed>, e: Installed)
    requires Ascending(entries) && entries != [] && KeyLess(KeyOf(e), KeyOf(entries[0]))
    ensures forall i :: 0 <= i < |entries| ==> KeyLess(KeyOf(e), KeyOf(entries[i])) && KeyOf(e) != KeyOf(entries[i])
  {
    forall i | 0 <= i < |entries|
      ensures KeyLess(KeyOf(e), KeyOf(entries[i])) && KeyOf(e) != KeyOf(entries[i])
    {
      if i > 0 { KeysTransitive(KeyOf(e), KeyOf(entries[0]), KeyOf(entries[i])); }
      KeysTotal(KeyOf(e), KeyOf(entries[i]));
      KeysTotal(KeyOf(e), KeyOf(e));
    }
  }

  lemma {:induction false} PutAscends(entries: seq<Installed>, e: Installed)
    requires Ascending(entries)
    ensures Ascending(Put(entries, e))
  {
    if entries == [] {
    } else {
      var first, rest := entries[0], entries[1..];
      if KeyOf(e) == KeyOf(first) {
      } else if KeyLess(KeyOf(e), KeyOf(first)) {
        SmallestIsNew(entries, e);
      } else {
        KeysTotal(KeyOf(e), KeyOf(first));
        PutAscends(rest, e);
        var later := Put(rest, e);
        forall k | 0 <= k < |later| ensures KeyLess(KeyOf(first), KeyOf(later[k])) {
          PutMembers(rest, e, later[k]);
        }
      }
    }
  }

  function LastWith(found: seq<Installed>, key: Key): Option<Installed> {
    if found == [] then None
    else if KeyOf(found[|found| - 1]) == key then Some(found[|found| - 1])
    else LastWith(found[..|found| - 1], key)
  }

  lemma {:induction false} PutAllIsLast(found: seq<Installed>)
    ensures Ascending(PutAll(found))
    ensures forall x :: x in PutAll(found) <==> LastWith(found, KeyOf(x)) == Some(x)
  {
    if found == [] {
    } else {
      var before, e := found[..|found| - 1], found[|found| - 1];
      PutAllIsLast(before);
      PutAscends(PutAll(before), e);
      forall x ensures x in PutAll(found) <==> LastWith(found, KeyOf(x)) == Some(x) {
        PutMembers(PutAll(before), e, x);
      }
    }
  }

  lemma ReverseMembers<T>(s: seq<T>, x: T)
    ensures x in Reverse(s) <==> x in s
  {
    if x in s {
      var j :| 0 <= j < |s| && s[j] == x;
      assert Reverse(s)[|s| - 1 - j] == x;
    }
  }

  /** Of a lower version, or of the same version with a smaller hash. */
  ghost predicate IsOlder(a: Installed, b: Installed) {
    || VersionLess(Parse(a.version), Parse(b.version))
    || (Parse(a.version) == Parse(b.version) && a.hash != b.hash && exists k :: DiffersBelow(a.hash, b.hash, k))
  }

  /** The list is strictly descending by version and then hash, and holds, for
      every version and hash found in the store, the entry found last. */
  lemma NewestFirst(engineId: string, listing: seq<VersionEntry>, i: nat, k: nat, x: Installed)
    ensures i < k < |InstalledList(engineId, listing)| ==>
              IsOlder(InstalledList(engineId, listing)[k], InstalledList(engineId, listing)[i])
    ensures x in InstalledList(engineId, listing) <==> LastWith(Found(engineId, listing), KeyOf(x)) == Some(x)
  {
    var found, list := Found(engineId, listing), InstalledList(engineId, listing);
    PutAllIsLast(found);
    ReverseMembers(PutAll(found), x);
    if i < k < |list| { BelowIsLexicographic(list[k].hash, list[i].hash); }
  }

  lemma {:induction false} LastIsThere(found: seq<Installed>, x: Installed)
    requires x in found
    ensures LastWith(found, KeyOf(x)).Some?
  {
    if KeyOf(found[|found| - 1]) == KeyOf(x) {
    } else {
      LastIsThere(found[..|found| - 1], x);
    }
  }

  lemma {:induction false} LastIsFound(found: seq<Installed>, key: Key)
    requires LastWith(found, key).Some?
    ensures LastWith(found, key).value in found && KeyOf(LastWith(found, key).value) == key
  {
    if KeyOf(found[|found| - 1]) == key {
    } else {
      LastIsFound(found[..|found| - 1], key);
    }
  }

  /** The list holds installed directories only, and one for every installed version and
      hash. */
  ghost predicate ListsAll(engineId: string, listing: seq<VersionEntry>, list: seq<Installed>) {
    && (forall x :: x in list ==> exists i, k :: IsInstalledAt(listing, i, k) && x == InstalledAt(engineId, listing, i, k))
    && (forall i, k :: IsInstalledAt(listing, i, k) ==>
          exists x :: x in list && KeyOf(x) == Key(Parse(listing[i].name), ToLower(listing[i].hashes[k].name)))
  }

  lemma ListedFor(engineId: string, listing: seq<VersionEntry>, i: int, k: int) returns (x: Installed)
    requires IsInstalledAt(listing, i, k)
    ensures x in InstalledList(engineId, listing)
    ensures KeyOf(x) == Key(Parse(listing[i].name), ToLower(listing[i].hashes[k].name))
  {
    var found, at := Found(engineId, listing), InstalledAt(engineId, listing, i, k);
    assert listing[..|listing|] == listing;
    FoundAre(engineId, listing, |listing|, at);
    LastIsThere(found, at);
    LastIsFound(found, KeyOf(at));
    x := LastWith(found, KeyOf(at)).value;
    NewestFirst(engineId, listing, 0, 0, x);
  }

  lemma AllListed(engineId: string, listing: seq<VersionEntry>)
    ensures ListsAll(engineId, listing, InstalledList(engineId, listing))
  {
    var found, list := Found(engineId, listing), InstalledList(engineId, listing);
    assert listing[..|listing|] == listing;
    forall x | x in list ensures exists i, k :: IsInstalledAt(listing, i, k) && x == InstalledAt(engineId, listing, i, k) {
      NewestFirst(engineId, listing, 0, 0, x);
      LastIsFound(found, KeyOf(x));
      FoundAre(engineId, listing, |listing|, x);
    }
    forall i, k | IsInstalledAt(listing, i, k)
      ensures exists x :: x in list && KeyOf(x) == Key(Parse(listing[i].name), ToLower(listing[i].hashes[k].name))
    {
      var x := ListedFor(engineId, listing, i, k);
    }
  }

  /** No other directory of the listing has the same version and hash. */
  ghost predicate IsOnlyOne(engineId: string, listing: seq<VersionEntry>, v: int, d: int)
    requires IsInstalledAt(listing, v, d)
  {
    forall i, k :: IsInstalledAt(listing, i, k) && KeyOf(InstalledAt(engineId, listing, i, k)) == KeyOf(InstalledAt(engineId, listing, v, d))
      ==> i == v && k == d
  }

  lemma OnlyOneIsListed(engineId: string, listing: seq<VersionEntry>, v: int, d: int)
    requires IsInstalledAt(listing, v, d) && IsOnlyOne(engineId, listing, v, d)
    ensures InstalledAt(engineId, listing, v, d) in InstalledList(engineId, listing)
  {
    var x := ListedFor(engineId, listing, v, d);
    AllListed(engineId, listing);
    var i, k :| IsInstalledAt(listing, i, k) && x == InstalledAt(engineId, listing, i, k);
  }

  /** Two packs of the same version with different manifests are both listed; they
      do not collapse to one. */
  lemma BothManifestsListed(engineId: string, listing: seq<VersionEntry>, i: int, k: int, l: int)
    returns (a: Installed, b: Installed)
    requires IsInstalledAt(listing, i, k) && IsInstalledAt(listing, i, l)
    requires ToLower(listing[i].hashes[k].name) != ToLower(listing[i].hashes[l].name)
    ensures a in InstalledList(engineId, listing) && b in InstalledList(engineId, listing) && a != b
    ensures Parse(a.version) == Parse(b.version) == Parse(listing[i].name)
    ensures a.hash == ToLower(listing[i].hashes[k].name) && b.hash == ToLower(listing[i].hashes[l].name)
  {
    a := ListedFor(engineId, listing, i, k);
    b := ListedFor(engineId, listing, i, l);
  }

  method InstalledVersions(engineId: string, listing: Option<seq<VersionEntry>>) returns (installed: seq<Installed>)
    ensures installed == if listing.None? then [] else InstalledList(engineId, listing.value)
    ensures listing.Some? ==> ListsAll(engineId, listing.value, installed)
  {
    if listing.None? { return []; }
    var byVersion: seq<Installed> := [];
    var versions := listing.value;
    for i := 0 to |versions|
      invariant byVersion == PutAll(Found(engineId, versions[..i]))
    {
      assert versions[..i + 1][..i] == versions[..i];
      var entry := versions[i];
      if !entry.isDirectory { continue; }
      ghost var before := Found(engineId, versions[..i]);
      assert before + FoundIn(engineId, entry.name, entry.hashes[..0]) == before;
      for k := 0 to |entry.hashes|
        invariant byVersion == PutAll(before + FoundIn(engineId, entry.name, entry.hashes[..k]))
      {
        var hash := entry.hashes[k];
        assert entry.hashes[..k + 1][..k] == entry.hashes[..k];
        if !IsHash(hash.name) || !hash.hasManifest { continue; }
        var found := ToInstalled(engineId, entry.name, hash);
        PutAllSnoc(before, FoundIn(engineId, entry.name, entry.hashes[..k]), found);
        byVersion := Put(byVersion, found);
      }
      assert entry.hashes[..|entry.hashes|] == entry.hashes;
    }
    assert versions[..|versions|] == versions;
    installed := Reverse(byVersion);
    AllListed(engineId, versions);
  }
}
