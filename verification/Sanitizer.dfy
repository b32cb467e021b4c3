// Removing scripts, event handlers and remote references from the HTML body of
// an e-mail, on the level of markup events.
module Sanitizer {
  import opened Options
  import opened Strings

  datatype Attribute = Attribute(key: string, value: string)

  /** What the tokenizer reports. An entity reference is an event of its own. `Other`
      stands for the remaining events, which are neither copied nor looked at, and `Broken`
      for a tokenizer error. */
  datatype Event =
    | Start(name: string, attributes: seq<Attribute>)
    | Empty(name: string, attributes: seq<Attribute>)
    | End(name: string)
    | Text(text: string)
    | CData(text: string)
    | Comment(text: string)
    | Decl(text: string)
    | Reference(name: string)
    | Other
    | Broken

  const REMOVED_SCRIPT := Comment(" script removed ")
  const REMOVED_REFERENCE := Attribute("data-fw-remote-removed", "1")

  predicate IsScript(name: string) {
    ToLower(name) == "script"
  }

  function TrimStart(s: string): string {
    if s != [] && s[0] in " \t\n\r" then TrimStart(s[1..]) else s
  }

  predicate IsRemoteUrl(value: string) {
    var trimmed := ToLower(TrimStart(value));
    "http://" <= trimmed || "https://" <= trimmed || "//" <= trimmed
  }

  predicate IsRemoteReference(a: Attribute) {
    ToLower(a.key) in ["src", "href", "xlink:href"] && IsRemoteUrl(a.value)
  }

  predicate IsHandler(a: Attribute) {
    "on" <= ToLower(a.key)
  }

  /** `prefix` begins `s`, in whatever case. */
  predicate BeginsWith(s: string, prefix: string) {
    |prefix| <= |s| && EqualButCase(s[..|prefix|], prefix)
  }

  lemma LowerPrefix(s: string, prefix: string)
    requires ToLower(prefix) == prefix
    ensures prefix <= ToLower(s) <==> BeginsWith(s, prefix)
  {
    if |prefix| <= |s| {
      SameLower(s[..|prefix|], prefix);
      assert ToLower(s)[..|prefix|] == ToLower(s[..|prefix|]);
    }
  }

  lemma {:induction false} TrimStartIs(s: string)
    ensures TrimStart(s) == [] || TrimStart(s)[0] !in " \t\n\r"
    ensures |TrimStart(s)| <= |s| && s[|s| - |TrimStart(s)|..] == TrimStart(s)
    ensures forall i :: 0 <= i < |s| - |TrimStart(s)| ==> s[i] in " \t\n\r"
  {
    if s != [] && s[0] in " \t\n\r" {
      TrimStartIs(s[1..]);
    }
  }

  /** Script tags are those of that name in whatever case. */
  lemma ScriptInAnyCase(name: string)
    ensures IsScript(name) <==> EqualButCase(name, "SCRIPT")
  {
    SameLower(name, "SCRIPT");
    assert ToLower("SCRIPT") == "script";
  }

  /** An attribute is a handler if its name begins with "on", in whatever case. */
  lemma HandlerWhen(a: Attribute)
    ensures IsHandler(a) <==> BeginsWith(a.key, "on")
  {
    LowerPrefix(a.key, "on");
  }

  lemma KeyIs(key: string, known: string)
    requires ToLower(known) == known
    ensures ToLower(key) == known <==> EqualButCase(key, known)
  {
    SameLower(key, known);
  }

  /** It is a remote reference if it is one of three and its value leads elsewhere, after
      blanks, by scheme or by host. */
  lemma RemoteReferenceWhen(a: Attribute)
    ensures IsRemoteReference(a) <==>
              && (EqualButCase(a.key, "src") || EqualButCase(a.key, "href") || EqualButCase(a.key, "xlink:href"))
              && (BeginsWith(TrimStart(a.value), "http://") || BeginsWith(TrimStart(a.value), "https://")
                  || BeginsWith(TrimStart(a.value), "//"))
  {
    var value := TrimStart(a.value);
    LowerPrefix(value, "http://");
    LowerPrefix(value, "https://");
    LowerPrefix(value, "//");
    KeyIs(a.key, "src");
    KeyIs(a.key, "href");
    KeyIs(a.key, "xlink:href");
  }

  function CleanAttributes(attributes: seq<Attribute>): seq<Attribute> {
    if attributes == [] then []
    else
      var a := attributes[|attributes| - 1];
      var before := CleanAttributes(attributes[..|attributes| - 1]);
      if IsRemoteReference(a) then before + [REMOVED_REFERENCE]
      else if IsHandler(a) then before
      else before + [a]
  }

  /** The attributes that stay are all the others; remote references leave a mark. */
  lemma {:induction false} AttributesKept(attributes: seq<Attribute>, x: Attribute)
    ensures x in CleanAttributes(attributes) <==>
              || (x in attributes && !IsRemoteReference(x) && !IsHandler(x))
              || (x == Attribute("data-fw-remote-removed", "1") && exists a :: a in attributes && IsRemoteReference(a))
  {
    if attributes == [] {
    } else {
      var n := |attributes| - 1;
      AttributesKept(attributes[..n], x);
      assert attributes == attributes[..n] + [attributes[n]];
    }
  }

  /** Each attribute is dealt with by itself, in its place. */
  lemma {:induction false} AttributesOneByOne(a: seq<Attribute>, b: seq<Attribute>)
    ensures CleanAttributes(a + b) == CleanAttributes(a) + CleanAttributes(b)
  {
    if b == [] {
      assert a + b == a;
    } else {
      var n := |b| - 1;
      AttributesOneByOne(a, b[..n]);
      assert (a + b)[..|a + b| - 1] == a + b[..n];
    }
  }

  predicate SafeAttributes(attributes: seq<Attribute>) {
    forall a :: a in attributes ==> !IsRemoteReference(a) && !IsHandler(a)
  }

  /** What is left to read once `depth` open scripts have been closed. */
  function AfterScript(events: seq<Event>, depth: nat): (rest: seq<Event>)
    ensures |rest| <= |events|
  {
    if depth == 0 || events == [] then events
    else
      match events[0]
      case Start(name, _) => AfterScript(events[1..], if IsScript(name) then depth + 1 else depth)
      case End(name) => AfterScript(events[1..], if IsScript(name) then depth - 1 else depth)
      case _ => AfterScript(events[1..], depth)
  }

  /** The sanitized events: a script element goes as a whole, up to the tag that
      closes it, and leaves a comment. */
  function Clean(events: seq<Event>): seq<Event>
    decreases |events|
  {
    if events == [] then []
    else
      var rest := events[1..];
      match events[0]
      case Start(name, attributes) =>
        if IsScript(name) then [REMOVED_SCRIPT] + Clean(AfterScript(rest, 1))
        else [Start(name, CleanAttributes(attributes))] + Clean(rest)
      case Empty(name, attributes) =>
        [if IsScript(name) then REMOVED_SCRIPT else Empty(name, CleanAttributes(attributes))] + Clean(rest)
      case End(name) => if IsScript(name) then Clean(rest) else [End(name)] + Clean(rest)
      case Reference(_) => Clean(rest)
      case Other => Clean(rest)
      case Broken => Clean(rest)
      case kept => [kept] + Clean(rest)
  }

  method PushSanitizedAttributes(attributes: seq<Attribute>) returns (output: seq<Attribute>)
    ensures output == CleanAttributes(attributes)
  {
    output := [];
    for i := 0 to |attributes|
      invariant output == CleanAttributes(attributes[..i])
    {
      var attribute := attributes[i];
      assert attributes[..i + 1][..i] == attributes[..i];
      var key := ToLower(attribute.key);
      if (key == "src" || key == "href" || key == "xlink:href") && IsRemoteUrl(attribute.value) {
        output := output + [REMOVED_REFERENCE];
        continue;
      }
      if "on" <= key { continue; }
      output := output + [attribute];
    }
    assert attributes[..|attributes|] == attributes;
  }

  /** What one event writes, given the counter of open scripts. */
  method HandleEvent(e: Event, scriptDepth: nat, output: seq<Event>) returns (written: seq<Event>, depth: nat)
    requires !e.Broken?
    ensures written == output + Added(scriptDepth, e) && depth == Stepped(scriptDepth, e)
  {
    written, depth := output, scriptDepth;
    match e {
      case Start(name, attributes) =>
        if IsScript(name) {
          if scriptDepth == 0 { written := written + [REMOVED_SCRIPT]; }
          depth := scriptDepth + 1;
          return;
        }
        if scriptDepth > 0 { return; }
        var kept := PushSanitizedAttributes(attributes);
        written := written + [Start(name, kept)];
      case Empty(name, attributes) =>
        if scriptDepth > 0 { return; }
        if IsScript(name) {
          written := written + [REMOVED_SCRIPT];
          return;
        }
        var kept := PushSanitizedAttributes(attributes);
        written := written + [Empty(name, kept)];
      case End(name) =>
        if IsScript(name) {
          depth := if scriptDepth > 0 then scriptDepth - 1 else 0;
          return;
        }
        if scriptDepth > 0 { return; }
        written := written + [e];
      case Reference(_) =>
      case Other =>
      case _ =>
        if scriptDepth == 0 { written := written + [e]; }
    }
  }

  /** One pass with a counter of open scripts. It gives up on a tokenizer error,
      wherever it is. */
  method TrySanitizeHtml(events: seq<Event>) returns (output: Option<seq<Event>>)
    ensures output == if Broken in events then None else Some(Clean(events))
  {
    var written: seq<Event> := [];
    var scriptDepth: nat := 0;
    for i := 0 to |events|
      invariant Broken !in events[..i]
      invariant Clean(events) == written + Clean(AfterScript(events[i..], scriptDepth))
    {
      if events[i].Broken? { return None; }
      OneEvent(events, i, scriptDepth, written, Clean(events));
      written, scriptDepth := HandleEvent(events[i], scriptDepth, written);
    }
    assert events[..|events|] == events && events[|events|..] == [];
    assert written + [] == written;
    return Some(written);
  }

  /** The event is one that is copied, and nothing in it can run or load anything remote. */
  predicate IsSafe(e: Event) {
    match e
    case Start(name, attributes) => !IsScript(name) && SafeAttributes(attributes)
    case Empty(name, attributes) => !IsScript(name) && SafeAttributes(attributes)
    case End(name) => !IsScript(name)
    case Reference(_) => false
    case Other => false
    case Broken => false
    case _ => true
  }

  lemma {:induction false} CleanAttributesAreSafe(attributes: seq<Attribute>)
    ensures SafeAttributes(CleanAttributes(attributes))
  {
    if attributes == [] {
    } else {
      CleanAttributesAreSafe(attributes[..|attributes| - 1]);
      assert ToLower(REMOVED_REFERENCE.key)[0] == 'd';
    }
  }

  lemma {:induction false} SafeAttributesStay(attributes: seq<Attribute>)
    requires SafeAttributes(attributes)
    ensures CleanAttributes(attributes) == attributes
  {
    if attributes == [] {
    } else {
      SafeAttributesStay(attributes[..|attributes| - 1]);
    }
  }

  lemma {:induction false} CleanIsSafe(events: seq<Event>)
    ensures forall i :: 0 <= i < |Clean(events)| ==> IsSafe(Clean(events)[i])
    decreases |events|
  {
    if events == [] {
    } else {
      CleanIsSafe(events[1..]);
      match events[0]
      case Start(name, attributes) =>
        CleanAttributesAreSafe(attributes);
        if IsScript(name) { CleanIsSafe(AfterScript(events[1..], 1)); }
      case Empty(_, attributes) => CleanAttributesAreSafe(attributes);
      case _ =>
    }
  }

  lemma {:induction false} SafeStays(events: seq<Event>)
    requires forall i :: 0 <= i < |events| ==> IsSafe(events[i])
    ensures Clean(events) == events
  {
    if events == [] {
    } else {
      assert IsSafe(events[0]);
      SafeStays(events[1..]);
      match events[0]
      case Start(_, attributes) => SafeAttributesStay(attributes);
      case Empty(_, attributes) => SafeAttributesStay(attributes);
      case _ =>
    }
  }

  /** Sanitizing what has been sanitized changes nothing. */
  lemma CleanTwice(events: seq<Event>)
    ensures Clean(Clean(events)) == Clean(events)
  {
    CleanIsSafe(events);
    SafeStays(Clean(events));
  }

  /** The number of open scripts after an event; a stray end tag closes none. */
  function Stepped(depth: nat, e: Event): nat {
    match e
    case Start(name, _) => if IsScript(name) then depth + 1 else depth
    case End(name) => if IsScript(name) && depth > 0 then depth - 1 else depth
    case _ => depth
  }

  /** What an event contributes while `depth` scripts are open. */
  function Added(depth: nat, e: Event): seq<Event> {
    match e
    case Start(name, attributes) =>
      if depth > 0 then [] else if IsScript(name) then [REMOVED_SCRIPT] else [Start(name, CleanAttributes(attributes))]
    case Empty(name, attributes) =>
      if depth > 0 then [] else if IsScript(name) then [REMOVED_SCRIPT] else [Empty(name, CleanAttributes(attributes))]
    case End(name) => if depth > 0 || IsScript(name) then [] else [e]
    case Reference(_) => []
    case Other => []
    case Broken => []
    case _ => if depth > 0 then [] else [e]
  }

  lemma StepAhead(events: seq<Event>, depth: nat)
    requires events != []
    ensures Clean(AfterScript(events, depth)) ==
              Added(depth, events[0]) + Clean(AfterScript(events[1..], Stepped(depth, events[0])))
  {
  }

  lemma OneEvent(events: seq<Event>, i: nat, depth: nat, written: seq<Event>, goal: seq<Event>)
    requires i < |events| && goal == written + Clean(AfterScript(events[i..], depth))
    ensures goal == written + Added(depth, events[i]) + Clean(AfterScript(events[i + 1..], Stepped(depth, events[i])))
  {
    assert events[i..][0] == events[i] && events[i..][1..] == events[i + 1..];
    StepAhead(events[i..], depth);
  }

  /** What becomes of an event outside scripts, if it is no script tag. */
  ghost function Rewritten(e: Event): seq<Event> {
    match e
    case Start(name, attributes) => [Start(name, CleanAttributes(attributes))]
    case Empty(name, attributes) => [Empty(name, CleanAttributes(attributes))]
    case Reference(_) => []
    case Other => []
    case Broken => []
    case _ => [e]
  }

  predicate IsScriptTag(e: Event) {
    (e.Start? || e.Empty? || e.End?) && EqualButCase(e.name, "SCRIPT")
  }

  /** The same body by counting: an event that is met while a script is open is dropped, a
      script tag that is met while none is open leaves a comment unless it is an end tag, and
      all other events stay but for their attributes. */
  ghost function Expected(events: seq<Event>, open: nat): seq<Event> {
    if events == [] then []
    else
      var e, rest := events[0], events[1..];
      if IsScriptTag(e) then
        (if open == 0 && !e.End? then [Comment(" script removed ")] else [])
        + Expected(rest, if e.Start? then open + 1 else if e.End? && open > 0 then open - 1 else open)
      else (if open == 0 then Rewritten(e) else []) + Expected(rest, open)
  }

  lemma {:induction false} CleanFrom(events: seq<Event>, open: nat)
    ensures Clean(AfterScript(events, open)) == Expected(events, open)
  {
    if events == [] {
    } else {
      var e := events[0];
      if e.Start? || e.Empty? || e.End? { ScriptInAnyCase(e.name); }
      StepAhead(events, open);
      CleanFrom(events[1..], Stepped(open, e));
      assert Expected(events, open) == Added(open, e) + Expected(events[1..], Stepped(open, e));
    }
  }

  /** The removal of whole elements is the same as counting open scripts. */
  lemma CleanIsExpected(events: seq<Event>)
    ensures Clean(events) == Expected(events, 0)
  {
    CleanFrom(events, 0);
  }

  function Texts(events: seq<Event>): seq<string> {
    if events == [] then []
    else (if events[0].Text? then [events[0].text] else []) + Texts(events[1..])
  }

  /** The texts that are met while no script is open. */
  function TextsOutside(events: seq<Event>, depth: nat): seq<string> {
    if events == [] then []
    else
      (if events[0].Text? && depth == 0 then [events[0].text] else [])
      + TextsOutside(events[1..], Stepped(depth, events[0]))
  }

  lemma {:induction false} TextSurvivesFrom(events: seq<Event>, depth: nat)
    ensures Texts(Clean(AfterScript(events, depth))) == TextsOutside(events, depth)
  {
    if events == [] {
    } else {
      StepAhead(events, depth);
      var added, rest := Added(depth, events[0]), Clean(AfterScript(events[1..], Stepped(depth, events[0])));
      TextSurvivesFrom(events[1..], Stepped(depth, events[0]));
      if added != [] { assert (added + rest)[1..] == rest; } else { assert added + rest == rest; }
    }
  }

  /** All text outside scripts survives, in order, and no other text does. */
  lemma TextSurvives(events: seq<Event>)
    ensures Texts(Clean(events)) == TextsOutside(events, 0)
  {
    TextSurvivesFrom(events, 0);
  }

  predicate IsData(e: Event) {
    e.Text? || e.CData? || e.Reference?
  }

  /** The character data, with the references in it. */
  function Data(events: seq<Event>): seq<Event> {
    if events == [] then [] else (if IsData(events[0]) then [events[0]] else []) + Data(events[1..])
  }

  /** The character data that is met while no script is open. */
  function DataOutside(events: seq<Event>, depth: nat): seq<Event> {
    if events == [] then []
    else
      (if IsData(events[0]) && depth == 0 then [events[0]] else [])
      + DataOutside(events[1..], Stepped(depth, events[0]))
  }

  function WithoutReferences(data: seq<Event>): seq<Event> {
    if data == [] then [] else (if data[0].Reference? then [] else [data[0]]) + WithoutReferences(data[1..])
  }

  lemma DataOfAdded(depth: nat, e: Event, rest: seq<Event>)
    ensures Data(Added(depth, e) + rest) == (if IsData(e) && !e.Reference? && depth == 0 then [e] else []) + Data(rest)
  {
    var added := Added(depth, e);
    if added != [] { assert (added + rest)[1..] == rest; } else { assert added + rest == rest; }
  }

  lemma WithoutOneMore(e: Event, kept: bool, rest: seq<Event>)
    ensures WithoutReferences((if kept then [e] else []) + rest) ==
              (if kept && !e.Reference? then [e] else []) + WithoutReferences(rest)
  {
    assert ([e] + rest)[1..] == rest && [] + rest == rest && [] + WithoutReferences(rest) == WithoutReferences(rest);
  }

  lemma {:induction false} DataSurvivesFrom(events: seq<Event>, depth: nat)
    ensures Data(Clean(AfterScript(events, depth))) == WithoutReferences(DataOutside(events, depth))
  {
    if events == [] {
    } else {
      var next := Stepped(depth, events[0]);
      StepAhead(events, depth);
      DataSurvivesFrom(events[1..], next);
      DataOfAdded(depth, events[0], Clean(AfterScript(events[1..], next)));
      WithoutOneMore(events[0], IsData(events[0]) && depth == 0, DataOutside(events[1..], next));
    }
  }

  /** Of the character data outside scripts everything survives but the references. */
  lemma DataSurvives(events: seq<Event>)
    ensures Data(Clean(events)) == WithoutReferences(DataOutside(events, 0))
  {
    DataSurvivesFrom(events, 0);
  }

  lemma {:induction false} ReferencesShorten(data: seq<Event>)
    ensures |WithoutReferences(data)| <= |data|
    ensures WithoutReferences(data) == data <==> forall i :: 0 <= i < |data| ==> !data[i].Reference?
  {
    if data == [] {
    } else {
      ReferencesShorten(data[1..]);
      if data[0].Reference? {
        assert |WithoutReferences(data)| < |data|;
      } else {
        assert data == [data[0]] + data[1..];
        assert WithoutReferences(data)[1..] == WithoutReferences(data[1..]);
        if forall i :: 0 <= i < |data[1..]| ==> !data[1..][i].Reference? {
          assert forall i :: 0 < i < |data| ==> data[i] == data[1..][i - 1];
        }
      }
    }
  }

  /** All the character data outside scripts survives exactly if there is no reference in it. */
  lemma DataIsKeptWhen(events: seq<Event>)
    ensures Data(Clean(events)) == DataOutside(events, 0) <==>
              forall i :: 0 <= i < |DataOutside(events, 0)| ==> !DataOutside(events, 0)[i].Reference?
  {
    DataSurvives(events);
    ReferencesShorten(DataOutside(events, 0));
  }

  /** Two names that an ampersand joins are left without it. */
  lemma AmpersandIsLost() returns (events: seq<Event>)
    ensures events == [Text("Tom "), Reference("amp"), Text(" Jerry")]
    ensures Clean(events) == [Text("Tom "), Text(" Jerry")]
  {
    events := [Text("Tom "), Reference("amp"), Text(" Jerry")];
    assert events[1..] == [Reference("amp"), Text(" Jerry")] && events[1..][1..] == [Text(" Jerry")];
    assert Clean([Text(" Jerry")]) == [Text(" Jerry")] + Clean([]);
    assert Clean(events[1..]) == [Text(" Jerry")];
  }
}
