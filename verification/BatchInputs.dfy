// Finding the images of a directory tree and naming their outputs.
module BatchInputs {
  import opened Options
  import opened Strings

  type Path = seq<string>

  /** A directory tree as read; `Other` is neither link, directory nor regular file. */
  datatype Node = Link(name: string) | File(name: string) | Other(name: string) | Dir(name: string, children: seq<Node>)

  function Extension(name: string): Option<string> {
    ExtensionFrom(name, |name|)
  }

  /** What follows the last dot before `end`, unless that dot opens the name. */
  function ExtensionFrom(name: string, end: nat): Option<string>
    requires end <= |name|
  {
    if end <= 1 then None
    else if name[end - 1] == '.' then Some(name[end..])
    else ExtensionFrom(name, end - 1)
  }

  lemma {:induction false} ExtensionFromIs(name: string, end: nat)
    requires end <= |name| && forall i :: end <= i < |name| ==> name[i] != '.'
    ensures match ExtensionFrom(name, end)
            case Some(e) => '.' !in e && |e| + 1 < |name| && name == name[..|name| - |e| - 1] + "." + e
            case None => forall i :: 0 < i < |name| ==> name[i] != '.'
  {
    if end <= 1 {
    } else if name[end - 1] == '.' {
      assert name == name[..end - 1] + "." + name[end..];
    } else {
      ExtensionFromIs(name, end - 1);
    }
  }

  /** A name has an extension exactly if it has a stem, a dot, and no other dot after it. */
  lemma ExtensionIs(name: string, stem: string, e: string)
    ensures stem != "" && '.' !in e && name == stem + "." + e ==> Extension(name) == Some(e)
    ensures (forall i :: 0 < i < |name| ==> name[i] != '.') ==> Extension(name) == None
    ensures Extension(name) == Some(e) ==> '.' !in e && |e| + 1 < |name| && name == name[..|name| - |e| - 1] + "." + e
  {
    ExtensionFromIs(name, |name|);
    if Extension(name).Some? {
      assert name[|name| - |Extension(name).value| - 1] == '.';
    }
    if stem != "" && '.' !in e && name == stem + "." + e {
      assert name[|stem|] == '.';
      var found := Extension(name).value;
      var place := |name| - |found| - 1;
      assert name[place] == '.';
      assert forall i :: |stem| < i < |name| ==> name[i] == e[i - |stem| - 1] && name[i] != '.';
      assert forall i :: place < i < |name| ==> name[i] == found[i - place - 1] && name[i] != '.';
      assert found == name[place + 1..] && e == name[|stem| + 1..];
    }
  }

  predicate IsImageName(name: string) {
    var extension := Extension(name);
    extension.Some? && ToLower(extension.value) in ["png", "jpg", "jpeg", "webp", "avif", "heic", "heif"]
  }

  /** The name of an image ends in a dot and one of seven extensions, in whatever case, and
      does not begin with that dot. */
  lemma ImageNameWhen(name: string)
    ensures IsImageName(name) <==>
              exists stem, e, known :: stem != "" && name == stem + "." + e && EqualButCase(e, known)
                && known in ["png", "jpg", "jpeg", "webp", "avif", "heic", "heif"]
  {
    var all := ["png", "jpg", "jpeg", "webp", "avif", "heic", "heif"];
    if IsImageName(name) {
      var e := Extension(name).value;
      ExtensionIs(name, "", e);
      var known := ToLower(e);
      LowerIsLower(known);
      SameLower(e, known);
      assert name == name[..|name| - |e| - 1] + "." + e && known in all;
    }
    if stem, e, known :| stem != "" && name == stem + "." + e && EqualButCase(e, known) && known in all {
      SameLower(e, known);
      KnownIsLower(known);
      NoDotIn(e, known);
      ExtensionIs(name, stem, e);
    }
  }

  lemma LowerIsLower(e: string)
    requires exists d :: e == ToLower(d)
    ensures ToLower(e) == e
  {
    var d :| e == ToLower(d);
    forall i | 0 <= i < |e| ensures LowerChar(e[i]) == e[i] {
      SameLowerChar(d[i], d[i]);
    }
  }

  lemma KnownIsLower(known: string)
    requires known in ["png", "jpg", "jpeg", "webp", "avif", "heic", "heif"]
    ensures ToLower(known) == known && '.' !in known
  {
  }

  lemma NoDotIn(e: string, known: string)
    requires EqualButCase(e, known) && '.' !in known
    ensures '.' !in e
  {
  }

  /** The images below `dir` that the search is to find: all except those under the
      output root. */
  function Images(dir: Path, nodes: seq<Node>, out: Path): multiset<Path>
    decreases nodes, 1
  {
    if nodes == [] then multiset{}
    else Images(dir, nodes[..|nodes| - 1], out) + ImagesOf(dir, nodes[|nodes| - 1], out)
  }

  function ImagesOf(dir: Path, node: Node, out: Path): multiset<Path>
    decreases node, 0
  {
    match node
    case Link(_) => multiset{}
    case Other(_) => multiset{}
    case File(name) => if IsImageName(name) then multiset{dir + [name]} else multiset{}
    case Dir(name, children) => if out <= dir + [name] then multiset{} else Images(dir + [name], children, out)
  }

  /** The links and other files below `dir`, by number. */
  function Passed(dir: Path, nodes: seq<Node>, out: Path): nat
    decreases nodes, 1
  {
    if nodes == [] then 0 else Passed(dir, nodes[..|nodes| - 1], out) + PassedOf(dir, nodes[|nodes| - 1], out)
  }

  function PassedOf(dir: Path, node: Node, out: Path): nat
    decreases node, 0
  {
    match node
    case Link(_) => 1
    case Other(_) => 0
    case File(name) => if IsImageName(name) then 0 else 1
    case Dir(name, children) => if out <= dir + [name] then 0 else Passed(dir + [name], children, out)
  }

  /** The links and regular files below `dir`, except those under the output root. */
  function Entries(dir: Path, nodes: seq<Node>, out: Path): nat
    decreases nodes, 1
  {
    if nodes == [] then 0 else Entries(dir, nodes[..|nodes| - 1], out) + EntriesOf(dir, nodes[|nodes| - 1], out)
  }

  function EntriesOf(dir: Path, node: Node, out: Path): nat
    decreases node, 0
  {
    if node.Dir? && !(out <= dir + [node.name]) then Entries(dir + [node.name], node.children, out)
    else if node.Link? || node.File? then 1
    else 0
  }

  /** Each of them is either an input, once, or passed over. */
  lemma {:induction false} EachOnce(dir: Path, nodes: seq<Node>, out: Path)
    ensures |Images(dir, nodes, out)| + Passed(dir, nodes, out) == Entries(dir, nodes, out)
    decreases nodes, 1
  {
    if nodes == [] {
    } else {
      EachOnce(dir, nodes[..|nodes| - 1], out);
      EachOfOnce(dir, nodes[|nodes| - 1], out);
    }
  }

  lemma {:induction false} EachOfOnce(dir: Path, node: Node, out: Path)
    ensures |ImagesOf(dir, node, out)| + PassedOf(dir, node, out) == EntriesOf(dir, node, out)
    decreases node, 0
  {
    if node.Dir? && !(out <= dir + [node.name]) {
      EachOnce(dir + [node.name], node.children, out);
    }
  }

  /** `relative` leads to a regular file. */
  predicate HasFile(nodes: seq<Node>, relative: Path)
    decreases |relative|
  {
    && relative != []
    && exists i :: 0 <= i < |nodes| && nodes[i].name == relative[0]
        && if |relative| == 1 then nodes[i].File? else nodes[i].Dir? && HasFile(nodes[i].children, relative[1..])
  }

  lemma {:induction false} ImagesAreBelow(dir: Path, nodes: seq<Node>, out: Path, p: Path)
    requires p in Images(dir, nodes, out)
    ensures dir < p
    decreases nodes, 1
  {
    var n := |nodes| - 1;
    if p in Images(dir, nodes[..n], out) {
      ImagesAreBelow(dir, nodes[..n], out, p);
    } else {
      ImagesOfAreBelow(dir, nodes[n], out, p);
    }
  }

  lemma {:induction false} ImagesOfAreBelow(dir: Path, node: Node, out: Path, p: Path)
    requires p in ImagesOf(dir, node, out)
    ensures dir + [node.name] <= p
    decreases node, 0
  {
    if node.Dir? {
      ImagesAreBelow(dir + [node.name], node.children, out, p);
    }
  }

  /** What the search is to find, said of one path at a time: the regular files with an
      image's name whose directory is not under the output root. */
  lemma {:induction false} ImagesAre(dir: Path, nodes: seq<Node>, out: Path, relative: Path)
    requires relative != [] && !(out <= dir)
    ensures dir + relative in Images(dir, nodes, out) <==>
              HasFile(nodes, relative) && IsImageName(relative[|relative| - 1]) && !(out <= dir + relative[..|relative| - 1])
    decreases nodes, 1
  {
    if nodes == [] {
    } else {
      var n := |nodes| - 1;
      ImagesAre(dir, nodes[..n], out, relative);
      ImagesOfAre(dir, nodes[n], out, relative);
      HasFileSplits(nodes, n, relative);
    }
  }

  lemma HasFileSplits(nodes: seq<Node>, n: nat, relative: Path)
    requires |nodes| == n + 1
    ensures HasFile(nodes, relative) <==> HasFile(nodes[..n], relative) || HasFile([nodes[n]], relative)
  {
    var last := [nodes[n]];
    assert last[0] == nodes[n];
    assert forall i :: 0 <= i < n ==> nodes[..n][i] == nodes[i];
  }

  lemma {:induction false} ImagesOfAre(dir: Path, node: Node, out: Path, relative: Path)
    requires relative != [] && !(out <= dir)
    ensures dir + relative in ImagesOf(dir, node, out) <==>
              HasFile([node], relative) && IsImageName(relative[|relative| - 1]) && !(out <= dir + relative[..|relative| - 1])
    decreases node, 0
  {
    var below, whole := dir + [node.name], dir + relative;
    assert [node][0] == node;
    if relative[0] != node.name {
      assert whole[|dir|] == relative[0] && below[|dir|] == node.name;
      if whole in ImagesOf(dir, node, out) { ImagesOfAreBelow(dir, node, out, whole); }
    } else if node.Dir? && |relative| > 1 {
      var rest := relative[1..];
      assert whole == below + rest;
      assert dir + relative[..|relative| - 1] == below + rest[..|rest| - 1];
      assert rest[|rest| - 1] == relative[|relative| - 1];
      if out <= below {
        assert out <= below + rest[..|rest| - 1];
      } else {
        ImagesAre(below, node.children, out, rest);
      }
    } else {
      assert relative == [node.name] || |relative| > 1;
      assert dir + relative[..0] == dir;
      if whole in ImagesOf(dir, node, out) && node.Dir? { ImagesAreBelow(below, node.children, out, whole); }
    }
  }

  /** A directory put aside to be read later. */
  datatype Pending = Pending(dir: Path, nodes: seq<Node>)

  function ImagesLeft(stack: seq<Pending>, out: Path): multiset<Path> {
    if stack == [] then multiset{}
    else
      var last := stack[|stack| - 1];
      ImagesLeft(stack[..|stack| - 1], out) + Images(last.dir, last.nodes, out)
  }

  function PassedLeft(stack: seq<Pending>, out: Path): nat {
    if stack == [] then 0
    else
      var last := stack[|stack| - 1];
      PassedLeft(stack[..|stack| - 1], out) + Passed(last.dir, last.nodes, out)
  }

  function Size(nodes: seq<Node>): nat
    decreases nodes, 1
  {
    if nodes == [] then 0 else Size(nodes[..|nodes| - 1]) + SizeOf(nodes[|nodes| - 1])
  }

  function SizeOf(node: Node): nat
    decreases node, 0
  {
    if node.Dir? then 1 + Size(node.children) else 0
  }

  function SizeLeft(stack: seq<Pending>): nat {
    if stack == [] then 0 else SizeLeft(stack[..|stack| - 1]) + 1 + Size(stack[|stack| - 1].nodes)
  }

  lemma {:induction false} ImagesConcat(a: seq<Pending>, b: seq<Pending>, out: Path)
    ensures ImagesLeft(a + b, out) == ImagesLeft(a, out) + ImagesLeft(b, out)
  {
    if b == [] {
      assert a + b == a;
    } else {
      var n := |b| - 1;
      assert (a + b)[..|a| + n] == a + b[..n];
      ImagesConcat(a, b[..n], out);
    }
  }

  lemma {:induction false} CountsConcat(a: seq<Pending>, b: seq<Pending>, out: Path)
    ensures PassedLeft(a + b, out) == PassedLeft(a, out) + PassedLeft(b, out)
    ensures SizeLeft(a + b) == SizeLeft(a) + SizeLeft(b)
  {
    if b == [] {
      assert a + b == a;
    } else {
      var n := |b| - 1;
      assert (a + b)[..|a| + n] == a + b[..n];
      CountsConcat(a, b[..n], out);
    }
  }

  lemma LeftConcat(a: seq<Pending>, b: seq<Pending>, out: Path)
    ensures ImagesLeft(a + b, out) == ImagesLeft(a, out) + ImagesLeft(b, out)
    ensures PassedLeft(a + b, out) == PassedLeft(a, out) + PassedLeft(b, out)
    ensures SizeLeft(a + b) == SizeLeft(a) + SizeLeft(b)
  {
    ImagesConcat(a, b, out);
    CountsConcat(a, b, out);
  }

  lemma OneLeft(dir: Path, nodes: seq<Node>, out: Path)
    ensures ImagesLeft([Pending(dir, nodes)], out) == Images(dir, nodes, out)
    ensures PassedLeft([Pending(dir, nodes)], out) == Passed(dir, nodes, out)
    ensures SizeLeft([Pending(dir, nodes)]) == 1 + Size(nodes)
  {
    assert [Pending(dir, nodes)][..0] == [];
  }

  /** What looking at one directory entry yields: at most one directory to read later,
      at most one input. */
  method ReadEntry(dir: Path, node: Node, out: Path)
    returns (directories: seq<Pending>, inputs: seq<Path>, discovered: nat, skipped: nat)
    ensures multiset(inputs) + ImagesLeft(directories, out) == ImagesOf(dir, node, out)
    ensures skipped + PassedLeft(directories, out) == PassedOf(dir, node, out)
    ensures discovered == |inputs| + skipped && SizeLeft(directories) <= SizeOf(node)
  {
    var path := dir + [node.name];
    directories, inputs, discovered, skipped := [], [], 0, 0;
    match node {
      case Link(_) =>
        discovered, skipped := 1, 1;
      case Dir(_, children) =>
        if !(out <= path) {
          OneLeft(path, children, out);
          directories := [Pending(path, children)];
        }
      case File(name) =>
        discovered := 1;
        if IsImageName(name) {
          inputs := [path];
        } else {
          skipped := 1;
        }
      case Other(_) =>
    }
  }

  lemma Regroup(inputs: multiset<Path>, found: multiset<Path>, left: multiset<Path>, more: multiset<Path>,
                rest: multiset<Path>, entry: multiset<Path>)
    requires found + more == entry
    ensures (inputs + found) + (left + more) + rest == inputs + left + (rest + entry)
  {
  }

  /** A directory has been read from its end down to entry `k`. */
  ghost predicate ReadDownTo(directories: seq<Pending>, inputs: seq<Path>, skipped: nat, dir: Path, nodes: seq<Node>, k: nat, out: Path)
    requires k <= |nodes|
  {
    && multiset(inputs) + ImagesLeft(directories, out) + Images(dir, nodes[..k], out) == Images(dir, nodes, out)
    && skipped + PassedLeft(directories, out) + Passed(dir, nodes[..k], out) == Passed(dir, nodes, out)
    && SizeLeft(directories) + Size(nodes[..k]) <= Size(nodes)
  }

  lemma OneEntryMore(directories: seq<Pending>, more: seq<Pending>, inputs: seq<Path>, found: seq<Path>,
                     skipped: nat, passed: nat, dir: Path, nodes: seq<Node>, k: nat, out: Path)
    requires k < |nodes| && ReadDownTo(directories, inputs, skipped, dir, nodes, k + 1, out)
    requires multiset(found) + ImagesLeft(more, out) == ImagesOf(dir, nodes[k], out)
    requires passed + PassedLeft(more, out) == PassedOf(dir, nodes[k], out) && SizeLeft(more) <= SizeOf(nodes[k])
    ensures ReadDownTo(directories + more, inputs + found, skipped + passed, dir, nodes, k, out)
  {
    assert nodes[..k + 1][..k] == nodes[..k];
    LeftConcat(directories, more, out);
    Regroup(multiset(inputs), multiset(found), ImagesLeft(directories, out), ImagesLeft(more, out),
            Images(dir, nodes[..k], out), ImagesOf(dir, nodes[k], out));
  }

  /** The inner loop of `enumerate_image_inputs`: one directory, read backwards. */
  method ReadDirectory(dir: Path, nodes: seq<Node>, out: Path)
    returns (directories: seq<Pending>, inputs: seq<Path>, discovered: nat, skipped: nat)
    ensures multiset(inputs) + ImagesLeft(directories, out) == Images(dir, nodes, out)
    ensures skipped + PassedLeft(directories, out) == Passed(dir, nodes, out)
    ensures discovered == |inputs| + skipped && SizeLeft(directories) <= Size(nodes)
  {
    directories, inputs, discovered, skipped := [], [], 0, 0;
    assert nodes[..|nodes|] == nodes;
    for k := |nodes| downto 0
      invariant ReadDownTo(directories, inputs, skipped, dir, nodes, k, out) && discovered == |inputs| + skipped
    {
      var more, found, seen, passed := ReadEntry(dir, nodes[k], out);
      OneEntryMore(directories, more, inputs, found, skipped, passed, dir, nodes, k, out);
      directories := directories + more;
      inputs, discovered, skipped := inputs + found, discovered + seen, skipped + passed;
    }
  }

  /** `enumerate_image_inputs`: a stack of directories yet to be read. Every image
      outside the output root is found, each once, and everything counted is either
      an input or skipped. */
  method EnumerateImageInputs(root: Path, nodes: seq<Node>, out: Path) returns (inputs: seq<Path>, discovered: nat, skipped: nat)
    ensures multiset(inputs) == Images(root, nodes, out)
    ensures skipped == Passed(root, nodes, out)
    ensures discovered == |inputs| + skipped == Entries(root, nodes, out)
  {
    EachOnce(root, nodes, out);
    var stack := [Pending(root, nodes)];
    inputs, discovered, skipped := [], 0, 0;
    OneLeft(root, nodes, out);
    while stack != []
      invariant multiset(inputs) + ImagesLeft(stack, out) == Images(root, nodes, out)
      invariant skipped + PassedLeft(stack, out) == Passed(root, nodes, out)
      invariant discovered == |inputs| + skipped
      decreases SizeLeft(stack)
    {
      var rest, next := stack[..|stack| - 1], stack[|stack| - 1];
      var directories, found, seen, passed := ReadDirectory(next.dir, next.nodes, out);
      LeftConcat(rest, directories, out);
      stack := rest + directories;
      inputs, discovered, skipped := inputs + found, discovered + seen, skipped + passed;
    }
  }
}
