/**
 * The citation-structure fetcher of knowledge_base/populate.py.
 *
 * The remote CTS service is replaced by the answers it gives for one work
 * URN (`Service`): the work's edition children, the valid references per
 * citation level, and the previous/next navigation per reference. URNs are
 * opaque strings. `TextStructureOf` says what the fetcher returns;
 * `FetchTextStructure` builds it step by step, as the source does, and is
 * proved to return exactly that value.
 */
module Populate {
  import opened Wrappers
  import opened Strings

  /** A child of the work's metadata: its URN and the names of its citation levels, outermost first. */
  datatype Edition = Edition(urn: string, citation: seq<string>)

  /** The navigation ids the service reports for one reference. */
  datatype Nav = Nav(prevId: Option<string>, nextId: Option<string>)

  /** What the service answers about one work URN. */
  datatype Service = Service(
    children: seq<Edition>,             // the work's editions, in iteration order
    reffs: nat -> seq<string>,          // valid references at a citation level
    navigation: string -> Nav)          // prev/next ids of a reference

  /** A citation level: its 1-based number and its lower-cased label. */
  type Level = (nat, string)

  /** One citable unit, as the dict with keys among "current", "parent", "previous", "following". */
  type Element = map<string, string>

  /** The fetched structure: the dict with keys "urn", "provenance", "levels" and "valid_reffs". */
  datatype TextStructure = TextStructure(
    urn: string,
    provenance: string,
    levels: seq<Level>,
    validReffs: map<nat, seq<Element>>)

  const DefaultEndpoint: string := "http://cts.perseids.org/api/cts"

  const GreekMarker: string := "greekLit"

  const ElementKeys: set<string> := {"current", "parent", "previous", "following"}

  /** The language suffix an edition URN must contain: Greek works want "grc", all others "lat". */
  function LanguageSuffix(urn: string): (suffix: string)
    ensures suffix == "grc" <==> exists i :: OccursAt(GreekMarker, urn, i)
    ensures suffix == "lat" <==> !exists i :: OccursAt(GreekMarker, urn, i)
  {
    if IsSubstring(GreekMarker, urn) then "grc" else "lat"
  }

  /** The generator's filter: the edition's URN contains the suffix. */
  predicate Matches(e: Edition, suffix: string): (matched: bool)
    ensures matched <==> exists i :: OccursAt(suffix, e.urn, i)
  {
    IsSubstring(suffix, e.urn)
  }

  /** The index of the first edition whose URN contains the suffix, or None when none does. */
  function FirstMatch(children: seq<Edition>, suffix: string): (k: Option<nat>)
    ensures k.Some? ==> k.value < |children| && Matches(children[k.value], suffix)
    ensures k.Some? ==> forall j :: 0 <= j < k.value ==> !Matches(children[j], suffix)
    ensures k.None? <==> forall j :: 0 <= j < |children| ==> !Matches(children[j], suffix)
    decreases |children|
  {
    if children == [] then None
    else if Matches(children[0], suffix) then Some(0)
    else
      match FirstMatch(children[1..], suffix)
      case None => None
      case Some(i) => Some(i + 1)
  }

  /**
   * A Latin work's editions all carry the namespace "latinLit", which
   * contains "lat"; so for such a work the first child is chosen, whatever
   * the language of its text.
   */
  lemma LatinNamespaceFirstChild(children: seq<Edition>)
    requires |children| >= 1
    requires exists i :: OccursAt("latinLit", children[0].urn, i)
    ensures FirstMatch(children, "lat") == Some(0)
  {
    var u := children[0].urn;
    assert Matches(children[0], "lat") by {
      var i :| OccursAt("latinLit", u, i);
      assert u[i..i + 3] == u[i..i + 8][..3];
      assert OccursAt("lat", u, i);
    }
  }

  /** The level list: the citation scheme enumerated from 1, labels lower-cased. */
  function Levels(citation: seq<string>): (levels: seq<Level>)
    ensures |levels| == |citation|
    ensures forall i :: 0 <= i < |levels| ==> levels[i].0 == i + 1
    ensures forall i :: 0 <= i < |levels| ==> |levels[i].1| == |citation[i]|
  {
    seq(|citation|, n requires 0 <= n < |citation| => (n + 1, Lower(citation[n])))
  }

  /** "{urn}:{ref}". */
  function Qualify(urn: string, ref: string): (id: string)
    ensures |id| == |urn| + 1 + |ref|
    ensures id[..|urn|] == urn && id[|urn|] == ':' && id[|urn| + 1..] == ref
  {
    urn + ":" + ref
  }

  /**
   * The reference part of the parent: the first `levelN - 1` dot-separated
   * parts of `ref`, rejoined. It is always a prefix of the reference, and
   * empty at level 1.
   */
  function ParentRef(ref: string, levelN: nat): (parent: string)
    ensures parent <= ref
    ensures levelN == 1 ==> parent == []
  {
    var parts := Split(ref, '.');
    var kept := SliceTo(parts, levelN - 1);
    JoinPrefix(parts, |kept|, '.');
    JoinSplit(ref, '.');
    assert kept == parts[..|kept|];
    Join(kept, '.')
  }

  /** The element recorded for reference `ref` at level `levelN`, given its navigation ids. */
  function ElementFor(urn: string, levelN: nat, ref: string, nav: Nav): (e: Element)
    ensures "current" in e && e["current"] == urn + ":" + ref
    ensures "parent" in e <==> '.' in ref
    ensures "parent" in e ==> e["parent"] == urn + ":" + ParentRef(ref, levelN)
    ensures "previous" in e <==> nav.nextId.Some?
    ensures "previous" in e ==> e["previous"] == urn + ":" + nav.nextId.value
    ensures "following" in e <==> nav.prevId.Some?
    ensures "following" in e ==> e["following"] == urn + ":" + nav.prevId.value
    ensures e.Keys <= ElementKeys
  {
    var withCurrent := map["current" := Qualify(urn, ref)];
    var withParent :=
      if '.' in ref then withCurrent["parent" := Qualify(urn, ParentRef(ref, levelN))]
      else withCurrent;
    var withPrevious :=
      if nav.nextId.Some? then withParent["previous" := Qualify(urn, nav.nextId.value)]
      else withParent;
    if nav.prevId.Some? then withPrevious["following" := Qualify(urn, nav.prevId.value)]
    else withPrevious
  }

  /** The elements of one level: one per reference the service lists, in its order. */
  function ReffsAt(urn: string, levelN: nat, svc: Service): (elements: seq<Element>)
    ensures |elements| == |svc.reffs(levelN)|
  {
    var refs := svc.reffs(levelN);
    seq(|refs|, j requires 0 <= j < |refs| => ElementFor(urn, levelN, refs[j], svc.navigation(refs[j])))
  }

  /** "valid_reffs" after processing `levels` in order; a later level number overwrites an earlier one. */
  function ValidReffs(urn: string, levels: seq<Level>, svc: Service): (reffs: map<nat, seq<Element>>)
    ensures reffs.Keys == LevelNumbers(levels)
    decreases |levels|
  {
    if levels == [] then map[]
    else
      var init := levels[..|levels| - 1];
      var last := levels[|levels| - 1];
      assert forall i :: 0 <= i < |init| ==> init[i] == levels[i];
      assert LevelNumbers(levels) == LevelNumbers(init) + {last.0};
      ValidReffs(urn, init, svc)[last.0 := ReffsAt(urn, last.0, svc)]
  }

  /** What the fetcher returns for `urn` when asked of `endpoint`, whose answers are `svc`. */
  function TextStructureOf(urn: string, endpoint: string, svc: Service): (r: Option<TextStructure>)
    ensures r.None? <==> forall j :: 0 <= j < |svc.children| ==> !Matches(svc.children[j], LanguageSuffix(urn))
    ensures r.Some? ==> r.value.urn == urn && r.value.provenance == endpoint
  {
    match FirstMatch(svc.children, LanguageSuffix(urn))
    case None => None
    case Some(k) =>
      var levels := Levels(svc.children[k].citation);
      Some(TextStructure(urn, endpoint, levels, ValidReffs(urn, levels, svc)))
  }

  /** The set of level numbers in a level list. */
  function LevelNumbers(levels: seq<Level>): (numbers: set<nat>)
  {
    set i | 0 <= i < |levels| :: levels[i].0
  }

  /** The level list of a citation scheme of n levels is numbered 1..n in ascending order. */
  lemma LevelsNumbered(citation: seq<string>)
    ensures |Levels(citation)| == |citation|
    ensures forall i :: 0 <= i < |citation| ==> Levels(citation)[i] == (i + 1, Lower(citation[i]))
    ensures forall i, j :: 0 <= i < j < |citation| ==> Levels(citation)[i].0 < Levels(citation)[j].0
    ensures forall n: nat :: n in LevelNumbers(Levels(citation)) <==> 1 <= n <= |citation|
  {
    var levels := Levels(citation);
    forall n: nat | 1 <= n <= |citation|
      ensures n in LevelNumbers(levels)
    {
      assert levels[n - 1].0 == n;
    }
  }

  /** The entry for a level is that level's elements when no later level has the same number. */
  lemma {:induction false} ValidReffsAt(urn: string, levels: seq<Level>, svc: Service, i: nat)
    requires i < |levels|
    requires forall j :: i < j < |levels| ==> levels[j].0 != levels[i].0
    ensures levels[i].0 in ValidReffs(urn, levels, svc)
    ensures ValidReffs(urn, levels, svc)[levels[i].0] == ReffsAt(urn, levels[i].0, svc)
    decreases |levels|
  {
    if i < |levels| - 1 {
      ValidReffsAt(urn, levels[..|levels| - 1], svc, i);
    }
  }

  /** The entries of "valid_reffs" for a citation scheme of n levels are those of levels 1..n. */
  lemma ReffsOfLevel(urn: string, citation: seq<string>, svc: Service, levelN: nat)
    ensures levelN in ValidReffs(urn, Levels(citation), svc) <==> 1 <= levelN <= |citation|
    ensures levelN in ValidReffs(urn, Levels(citation), svc) ==>
            ValidReffs(urn, Levels(citation), svc)[levelN] == ReffsAt(urn, levelN, svc)
  {
    var levels := Levels(citation);
    if 1 <= levelN <= |citation| {
      assert levels[levelN - 1].0 == levelN;
      assert levelN in LevelNumbers(levels);
      ValidReffsAt(urn, levels, svc, levelN - 1);
    } else {
      assert levelN !in LevelNumbers(levels);
    }
  }

  /**
   * A fetched structure lists the levels of the first matching edition, has
   * an entry for each level number 1..n and nothing else, and each entry
   * holds one element per reference the service lists for that level, in
   * the same order.
   */
  lemma FetchedStructure(urn: string, endpoint: string, svc: Service, levelN: nat)
    requires FirstMatch(svc.children, LanguageSuffix(urn)).Some?
    ensures TextStructureOf(urn, endpoint, svc).Some?
    ensures TextStructureOf(urn, endpoint, svc).value.levels ==
            Levels(svc.children[FirstMatch(svc.children, LanguageSuffix(urn)).value].citation)
    ensures levelN in TextStructureOf(urn, endpoint, svc).value.validReffs <==>
            1 <= levelN <= |TextStructureOf(urn, endpoint, svc).value.levels|
    ensures levelN in TextStructureOf(urn, endpoint, svc).value.validReffs ==>
            var elements := TextStructureOf(urn, endpoint, svc).value.validReffs[levelN];
            var refs := svc.reffs(levelN);
            |elements| == |refs| &&
            forall j :: 0 <= j < |refs| ==>
              elements[j] == ElementFor(urn, levelN, refs[j], svc.navigation(refs[j]))
  {
    var k := FirstMatch(svc.children, LanguageSuffix(urn)).value;
    var citation := svc.children[k].citation;
    var r := TextStructureOf(urn, endpoint, svc).value;
    assert r.levels == Levels(citation);
    assert r.validReffs == ValidReffs(urn, Levels(citation), svc);
    ReffsOfLevel(urn, citation, svc, levelN);
  }

  /**
   * For a reference at depth `levelN` (`levelN` parts, so `levelN - 1` dots
   * by `SplitCount`), the parent
   * is every dot-separated part but the last: parent, dot and last part
   * spell the reference again.
   */
  lemma ParentAtDepth(ref: string, levelN: nat)
    requires levelN >= 2 && |Split(ref, '.')| == levelN
    ensures Split(ParentRef(ref, levelN), '.') == Split(ref, '.')[..levelN - 1]
    ensures ParentRef(ref, levelN) + "." + Split(ref, '.')[levelN - 1] == ref
  {
    var parts := Split(ref, '.');
    assert SliceTo(parts, levelN - 1) == parts[..levelN - 1];
    JoinLast(parts, '.');
    JoinSplit(ref, '.');
    SplitJoin(parts[..levelN - 1], '.');
  }

  /** At level 2 and below, the parent's parts are exactly the first `levelN - 1` parts of the reference. */
  lemma ParentParts(ref: string, levelN: nat)
    requires levelN >= 2
    ensures Split(ParentRef(ref, levelN), '.') == SliceTo(Split(ref, '.'), levelN - 1)
  {
    var parts := Split(ref, '.');
    var kept := SliceTo(parts, levelN - 1);
    assert kept == parts[..|kept|];
    SplitJoin(kept, '.');
  }

  /** A reference listed at a level deeper than its own depth is its own parent. */
  lemma ParentOfShallowRef(ref: string, levelN: nat)
    requires levelN >= 2 && |Split(ref, '.')| <= levelN - 1
    ensures ParentRef(ref, levelN) == ref
  {
    JoinSplit(ref, '.');
  }

  /** A dotted reference listed at level 1 gets the bare work URN plus ":" as its parent. */
  lemma LevelOneParent(urn: string, ref: string, nav: Nav)
    requires '.' in ref
    ensures ElementFor(urn, 1, ref, nav)["parent"] == urn + ":"
  {
  }

  /** The file name: the URN with every ':' replaced by '-', plus ".json". */
  function FileName(urn: string): (name: string)
    ensures ':' !in name
    ensures |name| == |urn| + 5 && name[|urn|..] == ".json"
    ensures forall i :: 0 <= i < |urn| ==> name[i] == (if urn[i] == ':' then '-' else urn[i])
  {
    ReplaceChar(urn, ':', '-') + ".json"
  }

  /** The path the downloader writes to: the file name joined to the output directory. */
  function DownloadPath(basedir: string, urn: string): (path: string)
    ensures |FileName(urn)| <= |path| && path[|path| - |FileName(urn)|..] == FileName(urn)
    ensures (|urn| == 0 || urn[0] != '/') ==> basedir <= path
    ensures (|urn| == 0 || urn[0] != '/') && basedir != [] && basedir[|basedir| - 1] != '/' ==>
              path == basedir + "/" + FileName(urn)
    ensures (|urn| == 0 || urn[0] != '/') && (basedir == [] || basedir[|basedir| - 1] == '/') ==>
              path == basedir + FileName(urn)
    ensures |urn| > 0 && urn[0] == '/' ==> path == FileName(urn)
  {
    PathJoin(basedir, FileName(urn))
  }

  /** The body of the inner loop: the element dict, one optional key at a time. */
  method BuildElement(urn: string, levelN: nat, ref: string, nav: Nav) returns (element: Element)
    ensures element == ElementFor(urn, levelN, ref, nav)
  {
    element := map["current" := Qualify(urn, ref)];
    if '.' in ref {
      element := element["parent" := Qualify(urn, ParentRef(ref, levelN))];
    }
    if nav.nextId.Some? {
      element := element["previous" := Qualify(urn, nav.nextId.value)];
    }
    if nav.prevId.Some? {
      element := element["following" := Qualify(urn, nav.prevId.value)];
    }
  }

  /** The inner loop: the elements of one level, one per listed reference, appended in order. */
  method ListLevel(urn: string, levelN: nat, svc: Service) returns (elements: seq<Element>)
    ensures elements == ReffsAt(urn, levelN, svc)
  {
    var refs := svc.reffs(levelN);
    elements := [];
    var j := 0;
    while j < |refs|
      invariant 0 <= j <= |refs|
      invariant elements == ReffsAt(urn, levelN, svc)[..j]
    {
      var element := BuildElement(urn, levelN, refs[j], svc.navigation(refs[j]));
      assert ReffsAt(urn, levelN, svc)[..j + 1] == ReffsAt(urn, levelN, svc)[..j] + [element];
      elements := elements + [element];
      j := j + 1;
    }
    assert ReffsAt(urn, levelN, svc)[..j] == ReffsAt(urn, levelN, svc);
  }

  /**
   * fetch_text_structure: selects the edition, builds the level list, then
   * for each level appends one element per reference to that level's list
   * and stores the list in "valid_reffs".
   */
  method FetchTextStructure(urn: string, endpoint: string, svc: Service) returns (r: Option<TextStructure>)
    ensures r == TextStructureOf(urn, endpoint, svc)
  {
    var suffix := LanguageSuffix(urn);
    var k := FirstMatch(svc.children, suffix);
    if k.None? {
      return None;
    }
    var edition := svc.children[k.value];
    var levels := Levels(edition.citation);
    var validReffs: map<nat, seq<Element>> := map[];
    var i := 0;
    while i < |levels|
      invariant 0 <= i <= |levels|
      invariant validReffs == ValidReffs(urn, levels[..i], svc)
    {
      var levelN := levels[i].0;
      var elements := ListLevel(urn, levelN, svc);
      validReffs := validReffs[levelN := elements];
      assert levels[..i + 1][..i] == levels[..i];
      assert ValidReffs(urn, levels[..i + 1], svc) ==
             ValidReffs(urn, levels[..i], svc)[levelN := ReffsAt(urn, levelN, svc)];
      i := i + 1;
    }
    assert levels[..|levels|] == levels;
    r := Some(TextStructure(urn, endpoint, levels, validReffs));
  }

  /**
   * download_text_structure: fetches from the default endpoint and writes the
   * result, None included, to the computed path; the write is returned as
   * the pair (path, content).
   */
  method DownloadTextStructure(urn: string, basedir: string, svc: Service)
    returns (path: string, written: Option<TextStructure>)
    ensures path == DownloadPath(basedir, urn)
    ensures written == TextStructureOf(urn, DefaultEndpoint, svc)
  {
    written := FetchTextStructure(urn, DefaultEndpoint, svc);
    path := DownloadPath(basedir, urn);
  }
}
