/** The index of crawl evaluations: rows in order of recency bind source URLs to the companies
    that own them, directly or through the redirects of earlier rows.

    URL and company normalisation are parameters (`Names`); a missing text is the empty one. */
module EvaluationIndex {
  import opened Wrappers

  datatype Names = Names(url: string -> string, company: string -> string)

  datatype Lead = Lead(key: string, canonicalName: string, sourceUrls: seq<string>, projects: seq<string>,
                       primary: string)

  datatype Run = Run(originalSource: string, source: string, others: seq<string>)

  datatype Row = Row(leadKey: string, company: string, projects: seq<string>, originalSource: string, original: string,
                     source: string, others: seq<string>, runs: seq<Run>, completedAt: Option<int>, payload: string)

  /** A row of the input with its place there. */
  datatype Placed = Placed(order: nat, row: Row)

  type Pair = (string, string)

  function Either(first: string, second: string): string {
    if first != "" then first else second
  }

  function ProjectNames(lead: Lead): seq<string> {
    if lead.projects != [] then lead.projects else [lead.canonicalName]
  }

  function NameSet(e: Names, names: seq<string>): set<string> {
    set i | 0 <= i < |names| :: e.company(names[i])
  }

  // ----- recency -----

  /** A row with a readable completion time is later than one without; then the time and then
      the place in the input decide. */
  predicate Before(a: Placed, b: Placed) {
    match (a.row.completedAt, b.row.completedAt)
    case (None, Some(_)) => true
    case (Some(_), None) => false
    case (None, None) => a.order < b.order
    case (Some(s), Some(t)) => s < t || (s == t && a.order < b.order)
  }

  function Insert(x: Placed, ys: seq<Placed>): (r: seq<Placed>)
    ensures multiset(r) == multiset(ys) + multiset{x}
  {
    if ys == [] || !Before(x, ys[|ys| - 1]) then
      assert ys + [x] == ys + [x];
      ys + [x]
    else
      assert ys == ys[..|ys| - 1] + [ys[|ys| - 1]];
      Insert(x, ys[..|ys| - 1]) + [ys[|ys| - 1]]
  }

  /** The rows in order of recency. */
  function Ordered(rows: seq<Row>): seq<Placed> {
    if rows == [] then [] else Insert(Placed(|rows| - 1, rows[|rows| - 1]), Ordered(rows[..|rows| - 1]))
  }

  ghost predicate Ascending(xs: seq<Placed>) {
    forall i, j | 0 <= i < j < |xs| :: Before(xs[i], xs[j])
  }

  // ----- one row -----

  function Keyed(leads: seq<Lead>, key: string): Option<Lead> {
    if leads == [] then None
    else if leads[|leads| - 1].key == key then Some(leads[|leads| - 1])
    else Keyed(leads[..|leads| - 1], key)
  }

  function OwnersOf(e: Names, leads: seq<Lead>, url: string): set<string> {
    set i, k | 0 <= i < |leads| && 0 <= k < |leads[i].sourceUrls| && e.url(leads[i].sourceUrls[k]) == url
      :: e.company(leads[i].canonicalName)
  }

  function RunUrls(runs: seq<Run>): seq<string> {
    if runs == [] then []
    else
      var run := runs[|runs| - 1];
      RunUrls(runs[..|runs| - 1]) + [run.source, run.originalSource] + run.others
  }

  function Normalized(e: Names, urls: seq<string>): seq<string> {
    if urls == [] then []
    else Normalized(e, urls[..|urls| - 1]) + if e.url(urls[|urls| - 1]) == "" then [] else [e.url(urls[|urls| - 1])]
  }

  function EvaluationUrls(e: Names, row: Row): seq<string> {
    Normalized(e, [row.originalSource, row.original, row.source] + row.others + RunUrls(row.runs))
  }

  /** A row as the keyed lead completes it: `original` is the URL it is bound back to. */
  datatype Prepared = Prepared(row: Row, original: string, source: string, urls: seq<string>)

  function Prepare(e: Names, keyed: Option<Lead>, row: Row): Prepared {
    var urls, original, source := EvaluationUrls(e, row), e.url(Either(row.originalSource, row.original)),
      e.url(row.source);
    match keyed
    case None => Prepared(row, original, source, urls)
    case Some(lead) =>
      var matches := row.company == "" || e.company(row.company) in NameSet(e, ProjectNames(lead));
      var named := if row.projects == [] && matches then row.(projects := ProjectNames(lead)) else row;
      if lead.primary != "" && original == "" && source !in lead.sourceUrls then
        Prepared(named.(originalSource := lead.primary), lead.primary, source, urls + [lead.primary])
      else Prepared(named, original, source, urls)
  }

  function Scope(e: Names, row: Row): set<string> {
    NameSet(e, if row.projects != [] then row.projects else [row.company]) - {""}
  }

  function RunAnchors(e: Names, runs: seq<Run>): (r: seq<string>)
    ensures |r| == |runs| && forall i | 0 <= i < |r| :: r[i] == e.url(Either(runs[i].originalSource, runs[i].source))
  {
    seq(|runs|, i requires 0 <= i < |runs| => e.url(Either(runs[i].originalSource, runs[i].source)))
  }

  function Anchors(e: Names, p: Prepared): seq<string> {
    [Either(p.original, p.source)] + RunAnchors(e, p.row.runs)
  }

  function Direct(e: Names, leads: seq<Lead>, anchor: string): set<Pair> {
    set n | n in OwnersOf(e, leads, anchor) :: (n, anchor)
  }

  type Aliases = map<string, set<Pair>>

  function OriginsOf(aliases: Aliases, url: string): set<Pair> {
    if url in aliases then aliases[url] else {}
  }

  function InScope(pairs: set<Pair>, scope: set<string>): set<Pair> {
    set p | p in pairs && p.0 in scope
  }

  /** What one anchor binds: its only candidate or, for a row that names its companies, the
      owners among them. */
  function Bound(direct: set<Pair>, inherited: set<Pair>, scope: set<string>): set<Pair> {
    var candidates := if scope == {} then direct + inherited else InScope(direct + inherited, scope);
    if |candidates| == 1 then candidates
    else if scope != {} && direct != {} then InScope(direct, scope)
    else {}
  }

  function Bindings(e: Names, leads: seq<Lead>, aliases: Aliases, anchors: seq<string>, scope: set<string>,
                    inherits: bool): set<Pair> {
    if anchors == [] then {}
    else
      var anchor := anchors[|anchors| - 1];
      Bindings(e, leads, aliases, anchors[..|anchors| - 1], scope, inherits)
      + Bound(Direct(e, leads, anchor), if inherits then OriginsOf(aliases, anchor) else {}, scope)
  }

  function RowBindings(e: Names, leads: seq<Lead>, aliases: Aliases, p: Prepared): set<Pair> {
    Bindings(e, leads, aliases, Anchors(e, p), Scope(e, p.row), p.original == "")
  }

  function UrlsOf(bindings: set<Pair>): set<string> {
    set p | p in bindings :: p.1
  }

  function NamesAt(bindings: set<Pair>, url: string): set<string> {
    set p | p in bindings && p.1 == url :: p.0
  }

  // ----- the index -----

  datatype Entry = Entry(at: Placed, projects: set<string>)

  type Table = map<string, seq<Entry>>

  function Listed(t: Table, key: string): seq<Entry> {
    if key in t then t[key] else []
  }

  datatype Index = Index(aliases: Aliases, byUrl: Table, byKey: Table)

  function Extend(aliases: Aliases, urls: seq<string>, bindings: set<Pair>): Aliases {
    if urls == [] then aliases
    else
      var rest := Extend(aliases, urls[..|urls| - 1], bindings);
      rest[urls[|urls| - 1] := OriginsOf(rest, urls[|urls| - 1]) + bindings]
  }

  /** A row bound to one URL without an original records it, if it differs from its own. */
  function Redirected(p: Prepared, bindings: set<Pair>): Row {
    if p.original == "" && exists o :: o in UrlsOf(bindings) && UrlsOf(bindings) == {o} then
      var origin :| origin in UrlsOf(bindings) && UrlsOf(bindings) == {origin};
      if origin != p.source then p.row.(originalSource := origin) else p.row
    else p.row
  }

  function Post(t: Table, at: Placed, bindings: set<Pair>): Table {
    map u | u in t.Keys + UrlsOf(bindings)
      :: Listed(t, u) + if u in UrlsOf(bindings) then [Entry(at, NamesAt(bindings, u))] else []
  }

  function File(t: Table, key: string, at: Placed): Table {
    if key == "" then t
    else t[key := Listed(t, key) + [Entry(at, set i | 0 <= i < |at.row.projects| :: at.row.projects[i])]]
  }

  function Step(e: Names, leads: seq<Lead>, keyed: seq<Lead>, ix: Index, x: Placed): Index {
    var p := Prepare(e, Keyed(keyed, x.row.leadKey), x.row);
    var bindings := RowBindings(e, leads, ix.aliases, p);
    var at := Placed(x.order, Redirected(p, bindings));
    Index(if bindings == {} then ix.aliases else Extend(ix.aliases, p.urls, bindings),
          Post(ix.byUrl, at, bindings), File(ix.byKey, x.row.leadKey, at))
  }

  function Build(e: Names, leads: seq<Lead>, keyed: seq<Lead>, xs: seq<Placed>): Index {
    if xs == [] then Index(map[], map[], map[])
    else Step(e, leads, keyed, Build(e, leads, keyed, xs[..|xs| - 1]), xs[|xs| - 1])
  }

  // ----- every binding is owned -----

  ghost predicate Owned(e: Names, leads: seq<Lead>, p: Pair) {
    p.0 in OwnersOf(e, leads, p.1)
  }

  ghost predicate AllOwned(e: Names, leads: seq<Lead>, pairs: set<Pair>) {
    forall p | p in pairs :: Owned(e, leads, p)
  }

  ghost predicate AliasesOwned(e: Names, leads: seq<Lead>, aliases: Aliases) {
    forall u | u in aliases :: AllOwned(e, leads, aliases[u])
  }

  ghost predicate EntryOwned(e: Names, leads: seq<Lead>, url: string, entry: Entry) {
    entry.projects != {} && entry.projects <= OwnersOf(e, leads, url)
  }

  ghost predicate TableOwned(e: Names, leads: seq<Lead>, t: Table) {
    forall u, i | u in t && 0 <= i < |t[u]| :: EntryOwned(e, leads, u, t[u][i])
  }

  lemma {:induction false} BindingsOwned(e: Names, leads: seq<Lead>, aliases: Aliases, anchors: seq<string>,
                                         scope: set<string>, inherits: bool)
    requires AliasesOwned(e, leads, aliases)
    ensures AllOwned(e, leads, Bindings(e, leads, aliases, anchors, scope, inherits))
  {
    hide OwnersOf;
    if anchors != [] {
      BindingsOwned(e, leads, aliases, anchors[..|anchors| - 1], scope, inherits);
    }
  }

  lemma {:induction false} ExtendOwned(e: Names, leads: seq<Lead>, aliases: Aliases, urls: seq<string>,
                                       bindings: set<Pair>)
    requires AliasesOwned(e, leads, aliases) && AllOwned(e, leads, bindings)
    ensures AliasesOwned(e, leads, Extend(aliases, urls, bindings))
  {
    hide OwnersOf;
    if urls != [] {
      ExtendOwned(e, leads, aliases, urls[..|urls| - 1], bindings);
    }
  }

  lemma PostOwned(e: Names, leads: seq<Lead>, t: Table, at: Placed, bindings: set<Pair>)
    requires TableOwned(e, leads, t) && AllOwned(e, leads, bindings)
    ensures TableOwned(e, leads, Post(t, at, bindings))
  {
    hide OwnersOf;
    forall u, i | u in Post(t, at, bindings) && 0 <= i < |Post(t, at, bindings)[u]|
      ensures EntryOwned(e, leads, u, Post(t, at, bindings)[u][i])
    {
      if u in UrlsOf(bindings) {
        var p :| p in bindings && p.1 == u;
        assert p.0 in NamesAt(bindings, u);
        forall n | n in NamesAt(bindings, u) ensures n in OwnersOf(e, leads, u) {
          assert (n, u) in bindings;
          assert Owned(e, leads, (n, u));
        }
      }
    }
  }

  /** By induction over the rows: what is inherited was bound, and so owned, before. */
  lemma {:induction false} BuildOwned(e: Names, leads: seq<Lead>, keyed: seq<Lead>, xs: seq<Placed>)
    ensures AliasesOwned(e, leads, Build(e, leads, keyed, xs).aliases)
    ensures TableOwned(e, leads, Build(e, leads, keyed, xs).byUrl)
  {
    hide OwnersOf, Post, Extend, Bindings;
    if xs != [] {
      var ix, x := Build(e, leads, keyed, xs[..|xs| - 1]), xs[|xs| - 1];
      BuildOwned(e, leads, keyed, xs[..|xs| - 1]);
      var p := Prepare(e, Keyed(keyed, x.row.leadKey), x.row);
      var bindings := RowBindings(e, leads, ix.aliases, p);
      BindingsOwned(e, leads, ix.aliases, Anchors(e, p), Scope(e, p.row), p.original == "");
      ExtendOwned(e, leads, ix.aliases, p.urls, bindings);
      PostOwned(e, leads, ix.byUrl, Placed(x.order, Redirected(p, bindings)), bindings);
    }
  }

  // ----- the parts of a row, in its own fields -----

  lemma {:induction false} KeyedExactly(leads: seq<Lead>, key: string) returns (i: nat)
    ensures Keyed(leads, key) == None ==> forall lead | lead in leads :: lead.key != key
    ensures Keyed(leads, key) != None ==>
              && i < |leads| && Keyed(leads, key) == Some(leads[i]) && leads[i].key == key
              && forall j | i < j < |leads| :: leads[j].key != key
  {
    i := 0;
    if leads != [] {
      var n := |leads| - 1;
      if leads[n].key == key {
        i := n;
      } else {
        i := KeyedExactly(leads[..n], key);
        assert leads == leads[..n] + [leads[n]];
      }
    }
  }

  /** The companies that own a URL are those of the leads that list it. */
  lemma OwnersExactly(e: Names, leads: seq<Lead>, url: string, name: string)
    ensures name in OwnersOf(e, leads, url) <==>
              exists lead, u | lead in leads && u in lead.sourceUrls ::
                e.url(u) == url && e.company(lead.canonicalName) == name
  {
    if lead, u :| lead in leads && u in lead.sourceUrls && e.url(u) == url && e.company(lead.canonicalName) == name {
      var i :| 0 <= i < |leads| && leads[i] == lead;
      var k :| 0 <= k < |lead.sourceUrls| && lead.sourceUrls[k] == u;
      assert e.url(leads[i].sourceUrls[k]) == url;
    }
    if name in OwnersOf(e, leads, url) {
      var i, k :| 0 <= i < |leads| && 0 <= k < |leads[i].sourceUrls| && e.url(leads[i].sourceUrls[k]) == url
                  && e.company(leads[i].canonicalName) == name;
      assert leads[i] in leads && leads[i].sourceUrls[k] in leads[i].sourceUrls;
    }
  }

  lemma NamesExactly(e: Names, names: seq<string>, name: string)
    ensures name in NameSet(e, names) <==> exists n | n in names :: e.company(n) == name
  {
    if n :| n in names && e.company(n) == name {
      var i :| 0 <= i < |names| && names[i] == n;
      assert e.company(names[i]) == name;
    }
  }

  /** A row names the companies of its projects or, without any, its own; no empty name counts. */
  lemma ScopeExactly(e: Names, row: Row, name: string)
    ensures name in Scope(e, row) <==>
              && name != ""
              && if row.projects == [] then e.company(row.company) == name
                 else exists n | n in row.projects :: e.company(n) == name
  {
    hide NameSet;
    NamesExactly(e, row.projects, name);
    NamesExactly(e, [row.company], name);
    assert forall n | n in [row.company] :: n == row.company;
  }

  /** A row is anchored at its original URL, or else its own, and so is each of its runs. */
  lemma AnchorsExactly(e: Names, p: Prepared, url: string)
    ensures url in Anchors(e, p) <==>
              || url == (if p.original != "" then p.original else p.source)
              || exists run | run in p.row.runs ::
                   e.url(if run.originalSource != "" then run.originalSource else run.source) == url
  {
    var anchors := RunAnchors(e, p.row.runs);
    if run :| run in p.row.runs && e.url(if run.originalSource != "" then run.originalSource else run.source) == url {
      var i :| 0 <= i < |p.row.runs| && p.row.runs[i] == run;
      assert anchors[i] == url;
    }
    if url in anchors {
      var i :| 0 <= i < |anchors| && anchors[i] == url;
      assert p.row.runs[i] in p.row.runs;
    }
  }

  /** A row has the URLs of its own fields and of its runs, normalised and not empty. */
  lemma UrlsExactly(e: Names, row: Row, url: string)
    ensures url in EvaluationUrls(e, row) <==>
              && url != ""
              && exists u :: e.url(u) == url &&
                   (|| u in [row.originalSource, row.original, row.source] || u in row.others
                    || exists run | run in row.runs ::
                         u == run.source || u == run.originalSource || u in run.others)
  {
    NormalizedExactly(e, [row.originalSource, row.original, row.source] + row.others + RunUrls(row.runs), url);
    forall u
      ensures u in RunUrls(row.runs) <==>
              exists run | run in row.runs :: u == run.source || u == run.originalSource || u in run.others
    {
      RunUrlsExactly(row.runs, u);
    }
  }

  lemma {:induction false} NormalizedExactly(e: Names, urls: seq<string>, url: string)
    ensures url in Normalized(e, urls) <==> url != "" && exists u | u in urls :: e.url(u) == url
  {
    if urls != [] {
      var n := |urls| - 1;
      NormalizedExactly(e, urls[..n], url);
      assert urls == urls[..n] + [urls[n]];
    }
  }

  lemma {:induction false} RunUrlsExactly(runs: seq<Run>, u: string)
    ensures u in RunUrls(runs) <==>
              exists run | run in runs :: u == run.source || u == run.originalSource || u in run.others
  {
    if runs != [] {
      var n := |runs| - 1;
      RunUrlsExactly(runs[..n], u);
      assert runs == runs[..n] + [runs[n]];
    }
  }

  /** The keyed lead gives a row its companies if the row has none and does not name another,
      and its primary URL as the original if the row has none and is not at one of the lead's
      URLs; nothing else of the row changes. */
  lemma PrepareExactly(e: Names, keyed: Option<Lead>, row: Row)
    ensures var p := Prepare(e, keyed, row);
            var named := keyed.Some? && row.projects == [] &&
              (row.company == "" ||
                 exists n | n in (if keyed.value.projects == [] then [keyed.value.canonicalName]
                                  else keyed.value.projects) :: e.company(n) == e.company(row.company));
            var own := e.url(if row.originalSource != "" then row.originalSource else row.original);
            var bound := keyed.Some? && keyed.value.primary != "" && own == ""
                         && e.url(row.source) !in keyed.value.sourceUrls;
            && p.row.projects == (if !named then row.projects
                                  else if keyed.value.projects == [] then [keyed.value.canonicalName]
                                  else keyed.value.projects)
            && p.original == (if bound then keyed.value.primary else own) && p.source == e.url(row.source)
            && p.row.originalSource == (if bound then keyed.value.primary else row.originalSource)
            && p.row == row.(projects := p.row.projects, originalSource := p.row.originalSource)
            && p.urls == EvaluationUrls(e, row) + if bound then [keyed.value.primary] else []
  {
    hide EvaluationUrls, NameSet;
    if keyed.Some? { NamesExactly(e, ProjectNames(keyed.value), e.company(row.company)); }
    assert EvaluationUrls(e, row) + [] == EvaluationUrls(e, row);
  }

  /** A row without an original records the URL it is bound to, if that is one and not its own. */
  lemma RedirectedExactly(p: Prepared, bindings: set<Pair>, name: string, url: string)
    requires (name, url) in bindings
    ensures var r := Redirected(p, bindings);
            r == p.row.(originalSource :=
                   if p.original == "" && url != p.source && forall b | b in bindings :: b.1 == url then url
                   else p.row.originalSource)
  {
    assert url in UrlsOf(bindings);
    if forall b | b in bindings :: b.1 == url {
      assert UrlsOf(bindings) == {url};
    } else {
      var b :| b in bindings && b.1 != url;
      assert b.1 in UrlsOf(bindings);
    }
  }

  /** Each URL of the row inherits its bindings, beside those it had; other URLs keep theirs. */
  lemma {:induction false} ExtendExactly(aliases: Aliases, urls: seq<string>, bindings: set<Pair>, u: string)
    ensures OriginsOf(Extend(aliases, urls, bindings), u) ==
            OriginsOf(aliases, u) + if u in urls then bindings else {}
  {
    if urls != [] {
      var n := |urls| - 1;
      ExtendExactly(aliases, urls[..n], bindings, u);
      assert urls == urls[..n] + [urls[n]];
    }
  }

  /** A row is filed last under its lead key, if it has one, with its own companies; and last
      under each URL it is bound to, with the companies bound there. */
  lemma FiledExactly(t: Table, key: string, at: Placed, bindings: set<Pair>, u: string)
    ensures Listed(File(t, key, at), u) ==
            Listed(t, u) + if u == key != "" then [Entry(at, set n | n in at.row.projects)] else []
    ensures Listed(Post(t, at, bindings), u) ==
            Listed(t, u) + if exists b | b in bindings :: b.1 == u
              then [Entry(at, set b | b in bindings && b.1 == u :: b.0)] else []
  {
    assert (set i | 0 <= i < |at.row.projects| :: at.row.projects[i]) == set n | n in at.row.projects;
  }

  // ----- what a row binds -----

  /** Without inheritance the bindings are exactly known: a row that names companies binds each
      anchor to its owners among them, and a row that names none binds only the anchors that
      have exactly one owner. */
  lemma {:induction false} DirectBindingsExactly(e: Names, leads: seq<Lead>, aliases: Aliases, anchors: seq<string>,
                                                 scope: set<string>, n: string, u: string)
    ensures (n, u) in Bindings(e, leads, aliases, anchors, scope, false)
            <==> u in anchors && if scope == {} then OwnersOf(e, leads, u) == {n}
              else n in scope * OwnersOf(e, leads, u)
  {
    hide OwnersOf, Direct, Bound, OriginsOf;
    if anchors != [] {
      var anchor := anchors[|anchors| - 1];
      DirectBindingsExactly(e, leads, aliases, anchors[..|anchors| - 1], scope, n, u);
      DirectBoundExactly(e, leads, anchor, scope, n, u);
      assert anchors == anchors[..|anchors| - 1] + [anchor];
    }
  }

  lemma DirectBoundExactly(e: Names, leads: seq<Lead>, anchor: string, scope: set<string>, n: string, u: string)
    ensures (n, u) in Bound(Direct(e, leads, anchor), {}, scope)
            <==> u == anchor && if scope == {} then OwnersOf(e, leads, u) == {n} else n in scope * OwnersOf(e, leads, u)
  {
    hide OwnersOf;
    var direct, owners := Direct(e, leads, anchor), OwnersOf(e, leads, anchor);
    assert direct + {} == direct;
    forall m ensures (m, anchor) in direct <==> m in owners {
    }
    if scope == {} {
      Singletons(direct);
      if owners == {n} && u == anchor {
        assert direct == {(n, u)};
      }
      if direct == {(n, u)} {
        assert forall m :: m in owners <==> (m, anchor) in direct;
        assert owners == {n};
      }
    }
  }

  lemma Singletons(pairs: set<Pair>)
    ensures |pairs| == 1 <==> exists p :: pairs == {p}
    ensures |pairs| == 1 ==> forall p | p in pairs :: pairs == {p}
  {
    if |pairs| == 1 {
      var p :| p in pairs;
      assert |pairs - {p}| == 0;
      assert pairs == {p};
    }
  }

  /** What one anchor binds, inherited candidates included: a candidate that is the only one, or
      an owner of the anchor that the row names. */
  ghost predicate Binds(e: Names, leads: seq<Lead>, aliases: Aliases, anchor: string, scope: set<string>,
                        inherits: bool, p: Pair) {
    var candidates := Direct(e, leads, anchor) + if inherits then OriginsOf(aliases, anchor) else {};
    && p in candidates && (scope != {} ==> p.0 in scope)
    && ((forall q | q in candidates && (scope != {} ==> q.0 in scope) :: q == p)
        || (scope != {} && p in Direct(e, leads, anchor)))
  }

  lemma BoundExactly(direct: set<Pair>, inherited: set<Pair>, scope: set<string>, p: Pair)
    ensures p in Bound(direct, inherited, scope)
            <==> && p in direct + inherited && (scope != {} ==> p.0 in scope)
                 && ((forall q | q in direct + inherited && (scope != {} ==> q.0 in scope) :: q == p)
                     || (scope != {} && p in direct))
  {
    var candidates := if scope == {} then direct + inherited else InScope(direct + inherited, scope);
    Singletons(candidates);
    if forall q | q in candidates :: q == p {
      assert p in candidates ==> candidates == {p};
    }
  }

  /** The bindings of a row are those of its anchors, inherited ones included. */
  lemma {:induction false} BindingsExactly(e: Names, leads: seq<Lead>, aliases: Aliases, anchors: seq<string>,
                                           scope: set<string>,
                                           inherits: bool, p: Pair)
    ensures p in Bindings(e, leads, aliases, anchors, scope, inherits)
            <==> exists a :: a in anchors && Binds(e, leads, aliases, a, scope, inherits, p)
  {
    hide Direct, OriginsOf, Bound, Binds;
    if anchors != [] {
      var last := anchors[|anchors| - 1];
      BindingsExactly(e, leads, aliases, anchors[..|anchors| - 1], scope, inherits, p);
      AnchorExactly(e, leads, aliases, last, scope, inherits, p);
      assert anchors == anchors[..|anchors| - 1] + [last];
    }
  }

  lemma AnchorExactly(e: Names, leads: seq<Lead>, aliases: Aliases, anchor: string, scope: set<string>, inherits: bool,
                      p: Pair)
    ensures p in Bound(Direct(e, leads, anchor), if inherits then OriginsOf(aliases, anchor) else {}, scope)
            <==> Binds(e, leads, aliases, anchor, scope, inherits, p)
  {
    hide Direct, OriginsOf, Bound;
    BoundExactly(Direct(e, leads, anchor), if inherits then OriginsOf(aliases, anchor) else {}, scope, p);
  }

  /** A row that names companies binds none but those. */
  lemma {:induction false} BindingsInScope(e: Names, leads: seq<Lead>, aliases: Aliases, anchors: seq<string>,
                                           scope: set<string>, inherits: bool)
    requires scope != {}
    ensures forall p | p in Bindings(e, leads, aliases, anchors, scope, inherits) :: p.0 in scope
  {
    if anchors != [] {
      BindingsInScope(e, leads, aliases, anchors[..|anchors| - 1], scope, inherits);
    }
  }

  /** An anchor with several candidates gives a row that names no company nothing. */
  lemma AmbiguousBindsNothing(direct: set<Pair>, inherited: set<Pair>, p: Pair, q: Pair)
    requires p in direct + inherited && q in direct + inherited && p != q
    ensures Bound(direct, inherited, {}) == {}
  {
    Singletons(direct + inherited);
  }

  // ----- order -----

  lemma {:induction false} InsertAscends(x: Placed, ys: seq<Placed>)
    requires Ascending(ys) && forall i | 0 <= i < |ys| :: ys[i].order != x.order
    ensures Ascending(Insert(x, ys))
    ensures forall y :: y in Insert(x, ys) <==> y in ys || y == x
  {
    if ys != [] && Before(x, ys[|ys| - 1]) {
      var init, last := ys[..|ys| - 1], ys[|ys| - 1];
      assert ys == init + [last];
      InsertAscends(x, init);
      forall i | 0 <= i < |Insert(x, init)| ensures Before(Insert(x, init)[i], last) {
        assert Insert(x, init)[i] in Insert(x, init);
      }
    }
  }

  lemma {:induction false} OrderedAscends(rows: seq<Row>)
    ensures Ascending(Ordered(rows)) && forall y | y in Ordered(rows) :: y.order < |rows|
  {
    hide Insert;
    if rows != [] {
      OrderedAscends(rows[..|rows| - 1]);
      InsertAscends(Placed(|rows| - 1, rows[|rows| - 1]), Ordered(rows[..|rows| - 1]));
    }
  }

  function RowsOf(xs: seq<Placed>): (r: seq<Row>)
    ensures |r| == |xs| && forall i | 0 <= i < |xs| :: r[i] == xs[i].row
  {
    seq(|xs|, i requires 0 <= i < |xs| => xs[i].row)
  }

  lemma {:induction false} InsertRows(x: Placed, ys: seq<Placed>)
    ensures multiset(RowsOf(Insert(x, ys))) == multiset(RowsOf(ys)) + multiset{x.row}
  {
    if ys == [] || !Before(x, ys[|ys| - 1]) {
      assert RowsOf(ys + [x]) == RowsOf(ys) + [x.row];
    } else {
      var init, last := ys[..|ys| - 1], ys[|ys| - 1];
      InsertRows(x, init);
      assert RowsOf(Insert(x, ys)) == RowsOf(Insert(x, init)) + [last.row];
      assert RowsOf(ys) == RowsOf(init) + [last.row];
    }
  }

  lemma SplitLast(s: seq<Row>)
    requires s != []
    ensures multiset(s) == multiset(s[..|s| - 1]) + multiset{s[|s| - 1]}
  {
    assert s == s[..|s| - 1] + [s[|s| - 1]];
  }

  lemma {:induction false} OrderedRows(rows: seq<Row>)
    ensures multiset(RowsOf(Ordered(rows))) == multiset(rows)
  {
    hide Insert;
    if rows != [] {
      OrderedRows(rows[..|rows| - 1]);
      InsertRows(Placed(|rows| - 1, rows[|rows| - 1]), Ordered(rows[..|rows| - 1]));
      SplitLast(rows);
    }
  }

  /** Strictly earlier by completion time alone. */
  predicate Earlier(a: Row, b: Row) {
    match (a.completedAt, b.completedAt)
    case (None, Some(_)) => true
    case (Some(s), Some(t)) => s < t
    case _ => false
  }

  /** Every row occurs once, and no two have the same completion time or both none. */
  ghost predicate TimesDiffer(rows: multiset<Row>) {
    forall a, b | a in rows && b in rows :: rows[a] == 1 && (a.completedAt == b.completedAt ==> a == b)
  }

  ghost predicate Increasing(rows: seq<Row>) {
    forall i, j | 0 <= i < j < |rows| :: Earlier(rows[i], rows[j])
  }

  lemma OnceIn(rows: seq<Row>, i: nat, j: nat)
    requires i < j < |rows| && multiset(rows)[rows[i]] == 1
    ensures rows[i] != rows[j]
  {
    assert rows == rows[..j] + [rows[j]] + rows[j + 1..];
    assert rows[i] == rows[..j][i];
    assert rows[i] in multiset(rows[..j]);
  }

  lemma OrderedIncreases(rows: seq<Row>)
    requires TimesDiffer(multiset(rows))
    ensures Increasing(RowsOf(Ordered(rows)))
  {
    hide Ordered;
    OrderedAscends(rows);
    OrderedRows(rows);
    var xs := Ordered(rows);
    var rs := RowsOf(xs);
    forall i, j | 0 <= i < j < |rs| ensures Earlier(rs[i], rs[j]) {
      assert rs[i] in multiset(rs) && rs[j] in multiset(rs);
      OnceIn(rs, i, j);
      assert Before(xs[i], xs[j]);
    }
  }

  lemma SameLast(a: seq<Row>, b: seq<Row>)
    requires multiset(a) == multiset(b) && a != [] && b != [] && Increasing(a) && Increasing(b)
    ensures a[|a| - 1] == b[|b| - 1]
  {
    var x, y := a[|a| - 1], b[|b| - 1];
    assert x in multiset(b) && y in multiset(a);
    var i :| 0 <= i < |b| && b[i] == x;
    var j :| 0 <= j < |a| && a[j] == y;
    assert i == |b| - 1 || Earlier(b[i], y);
    assert j == |a| - 1 || Earlier(a[j], x);
  }

  lemma DropLast(a: seq<Row>, b: seq<Row>)
    requires multiset(a) == multiset(b) && |a| == |b| > 0 && a[|a| - 1] == b[|b| - 1]
    ensures multiset(a[..|a| - 1]) == multiset(b[..|b| - 1])
  {
    SplitLast(a);
    SplitLast(b);
    assert multiset(a[..|a| - 1]) == multiset(a) - multiset{a[|a| - 1]};
  }

  lemma {:induction false} IncreasingIsUnique(a: seq<Row>, b: seq<Row>)
    requires multiset(a) == multiset(b) && Increasing(a) && Increasing(b)
    ensures a == b
  {
    hide Earlier;
    assert |a| == |multiset(a)| == |multiset(b)| == |b|;
    if a != [] {
      SameLast(a, b);
      DropLast(a, b);
      var n := |a| - 1;
      assert Increasing(a[..n]) && Increasing(b[..n]);
      IncreasingIsUnique(a[..n], b[..n]);
      assert a == a[..n] + [a[n]] && b == b[..n] + [b[n]];
    }
  }

  /** Entries without their places in the input. */
  function Erased(entries: seq<Entry>): (r: seq<(Row, set<string>)>)
    ensures |r| == |entries|
  {
    seq(|entries|, i requires 0 <= i < |entries| => (entries[i].at.row, entries[i].projects))
  }

  ghost predicate SameTable(t: Table, s: Table) {
    t.Keys == s.Keys && forall u | u in t :: Erased(t[u]) == Erased(s[u])
  }

  ghost predicate SameIndex(ix: Index, jx: Index) {
    ix.aliases == jx.aliases && SameTable(ix.byUrl, jx.byUrl)
  }

  lemma ErasedMore(a: seq<Entry>, b: seq<Entry>, x: Entry, y: Entry)
    requires Erased(a) == Erased(b) && x.at.row == y.at.row && x.projects == y.projects
    ensures Erased(a + [x]) == Erased(b + [y])
  {
    assert Erased(a + [x]) == Erased(a) + [(x.at.row, x.projects)];
    assert Erased(b + [y]) == Erased(b) + [(y.at.row, y.projects)];
  }

  lemma SamePost(t: Table, s: Table, at: Placed, other: Placed, bindings: set<Pair>)
    requires SameTable(t, s) && at.row == other.row
    ensures SameTable(Post(t, at, bindings), Post(s, other, bindings))
  {
    hide Erased, NamesAt;
    forall u | u in Post(t, at, bindings)
      ensures Erased(Post(t, at, bindings)[u]) == Erased(Post(s, other, bindings)[u])
    {
      var a, b, names := Listed(t, u), Listed(s, u), NamesAt(bindings, u);
      ErasedMore(a, b, Entry(at, names), Entry(other, names));
      assert a + [] == a && b + [] == b;
    }
  }

  lemma {:induction false} BuildSame(e: Names, leads: seq<Lead>, keyed: seq<Lead>, xs: seq<Placed>, ys: seq<Placed>)
    requires RowsOf(xs) == RowsOf(ys)
    ensures SameIndex(Build(e, leads, keyed, xs), Build(e, leads, keyed, ys))
  {
    hide Post, Extend, Bindings, Prepare, Redirected, File;
    if xs != [] {
      var x, y, n := xs[|xs| - 1], ys[|xs| - 1], |xs| - 1;
      assert RowsOf(xs[..n]) == RowsOf(xs)[..n] == RowsOf(ys)[..n] == RowsOf(ys[..n]);
      BuildSame(e, leads, keyed, xs[..n], ys[..n]);
      var ix, jx := Build(e, leads, keyed, xs[..n]), Build(e, leads, keyed, ys[..n]);
      assert x.row == RowsOf(xs)[n] == y.row;
      var p := Prepare(e, Keyed(keyed, x.row.leadKey), x.row);
      var bindings := RowBindings(e, leads, ix.aliases, p);
      SamePost(ix.byUrl, jx.byUrl, Placed(x.order, Redirected(p, bindings)), Placed(y.order, Redirected(p, bindings)),
               bindings);
    }
  }

  // ----- answers -----

  predicate Accepts(e: Names, names: set<string>, entry: Entry) {
    if entry.projects != {} then exists p :: p in entry.projects && e.company(p) in names
    else entry.at.row.company == "" || e.company(entry.at.row.company) in names
  }

  /** An entry answers a lead if it is bound to one of the lead's companies or, bound to none,
      names no company or one of them. */
  lemma AcceptsExactly(e: Names, lead: Lead, entry: Entry)
    ensures var names := if lead.projects == [] then [lead.canonicalName] else lead.projects;
            var company := entry.at.row.company;
            Accepts(e, NameSet(e, ProjectNames(lead)), entry) <==>
              if entry.projects == {}
              then company == "" || exists own | own in names :: e.company(own) == e.company(company)
              else exists p, own | p in entry.projects && own in names :: e.company(own) == e.company(p)
  {
    hide NameSet;
    var names := if lead.projects == [] then [lead.canonicalName] else lead.projects;
    forall name ensures name in NameSet(e, ProjectNames(lead)) <==> exists n | n in names :: e.company(n) == name {
      NamesExactly(e, names, name);
    }
    if p, own :| p in entry.projects && own in names && e.company(own) == e.company(p) {
      assert e.company(p) in NameSet(e, ProjectNames(lead));
    }
  }

  function Accepted(e: Names, names: set<string>, entries: seq<Entry>): (r: seq<Entry>)
    ensures forall x :: x in r <==> x in entries && Accepts(e, names, x)
  {
    if entries == [] then []
    else
      var last := entries[|entries| - 1];
      assert entries == entries[..|entries| - 1] + [last];
      Accepted(e, names, entries[..|entries| - 1]) + if Accepts(e, names, last) then [last] else []
  }

  ghost predicate EntriesAscend(entries: seq<Entry>) {
    forall i, j | 0 <= i < j < |entries| :: Before(entries[i].at, entries[j].at)
  }

  /** An entry keeps the time and the place of a row filed. */
  ghost predicate From(xs: seq<Placed>, entry: Entry) {
    exists i :: 0 <= i < |xs| && xs[i].order == entry.at.order && xs[i].row.completedAt == entry.at.row.completedAt
  }

  ghost predicate TableAscends(xs: seq<Placed>, t: Table) {
    forall u | u in t :: EntriesAscend(t[u]) && forall i | 0 <= i < |t[u]| :: From(xs, t[u][i])
  }

  lemma FiledAtSameTime(e: Names, keyed: Option<Lead>, row: Row, bindings: set<Pair>)
    ensures Redirected(Prepare(e, keyed, row), bindings).completedAt == row.completedAt
  {
    hide EvaluationUrls, NameSet, UrlsOf;
  }

  lemma FromMore(xs: seq<Placed>, x: Placed, entry: Entry)
    requires From(xs, entry) || (entry.at.order == x.order && entry.at.row.completedAt == x.row.completedAt)
    ensures From(xs + [x], entry)
  {
    if From(xs, entry) {
      var k :| 0 <= k < |xs| && xs[k].order == entry.at.order && xs[k].row.completedAt == entry.at.row.completedAt;
      assert (xs + [x])[k] == xs[k];
    } else {
      assert (xs + [x])[|xs|] == x;
    }
  }

  lemma EarlierEntry(xs: seq<Placed>, x: Placed, was: Entry, at: Placed)
    requires From(xs, was) && forall i | 0 <= i < |xs| :: Before(xs[i], x)
    requires at.order == x.order && at.row.completedAt == x.row.completedAt
    ensures Before(was.at, at)
  {
    var k :| 0 <= k < |xs| && xs[k].order == was.at.order && xs[k].row.completedAt == was.at.row.completedAt;
    assert Before(xs[k], x);
  }

  lemma PostAscends(t: Table, at: Placed, bindings: set<Pair>, xs: seq<Placed>, x: Placed)
    requires TableAscends(xs, t)
    requires forall i | 0 <= i < |xs| :: Before(xs[i], x)
    requires at.order == x.order && at.row.completedAt == x.row.completedAt
    ensures TableAscends(xs + [x], Post(t, at, bindings))
  {
    hide NamesAt, From, Before;
    var s := Post(t, at, bindings);
    forall u | u in s ensures EntriesAscend(s[u]) && forall i | 0 <= i < |s[u]| :: From(xs + [x], s[u][i]) {
      var was := Listed(t, u);
      forall i | 0 <= i < |was| ensures Before(was[i].at, at) {
        EarlierEntry(xs, x, was[i], at);
      }
      forall i | 0 <= i < |s[u]| ensures From(xs + [x], s[u][i]) {
        FromMore(xs, x, s[u][i]);
      }
    }
  }

  lemma NothingFiled()
    ensures TableAscends([], map[])
  {
  }

  /** The rows of a URL are filed in order of recency. */
  lemma {:induction false} BuildAscends(e: Names, leads: seq<Lead>, keyed: seq<Lead>, xs: seq<Placed>)
    requires Ascending(xs)
    ensures TableAscends(xs, Build(e, leads, keyed, xs).byUrl)
  {
    hide Post, Extend, Bindings, Prepare, Redirected, File, TableAscends;
    if xs == [] {
      NothingFiled();
    } else {
      var init, x := xs[..|xs| - 1], xs[|xs| - 1];
      assert Ascending(init);
      BuildAscends(e, leads, keyed, init);
      var ix := Build(e, leads, keyed, init);
      var p := Prepare(e, Keyed(keyed, x.row.leadKey), x.row);
      var bindings := RowBindings(e, leads, ix.aliases, p);
      FiledAtSameTime(e, Keyed(keyed, x.row.leadKey), x.row, bindings);
      PostAscends(ix.byUrl, Placed(x.order, Redirected(p, bindings)), bindings, init, x);
      assert xs == init + [x];
    }
  }

  lemma {:induction false} AcceptedAscends(e: Names, names: set<string>, entries: seq<Entry>)
    requires EntriesAscend(entries)
    ensures EntriesAscend(Accepted(e, names, entries))
  {
    hide Accepts;
    if entries != [] {
      var init, last := entries[..|entries| - 1], entries[|entries| - 1];
      AcceptedAscends(e, names, init);
      forall i | 0 <= i < |Accepted(e, names, init)| ensures Before(Accepted(e, names, init)[i].at, last.at) {
        assert Accepted(e, names, init)[i] in init;
      }
    }
  }

  lemma {:induction false} AcceptedSame(e: Names, names: set<string>, a: seq<Entry>, b: seq<Entry>)
    requires Erased(a) == Erased(b)
    ensures Erased(Accepted(e, names, a)) == Erased(Accepted(e, names, b))
  {
    if a != [] {
      var n := |a| - 1;
      assert Erased(a)[n] == Erased(b)[n];
      assert Erased(a[..n]) == Erased(a)[..n] && Erased(b[..n]) == Erased(b)[..n];
      AcceptedSame(e, names, a[..n], b[..n]);
      assert Accepts(e, names, a[n]) == Accepts(e, names, b[n]);
      assert Erased(Accepted(e, names, a[..n]) + [a[n]]) == Erased(Accepted(e, names, a[..n])) + [Erased(a)[n]];
      assert Erased(Accepted(e, names, b[..n]) + [b[n]]) == Erased(Accepted(e, names, b[..n])) + [Erased(b)[n]];
      assert Accepted(e, names, a[..n]) + [] == Accepted(e, names, a[..n]);
      assert Accepted(e, names, b[..n]) + [] == Accepted(e, names, b[..n]);
    }
  }

  function Latest(entries: seq<Entry>): Option<Entry> {
    if entries == [] then None else Some(entries[|entries| - 1])
  }

  /** The answer of an index to a lead at a real URL: the last acceptable entry filed there. */
  function Answer(e: Names, ix: Index, lead: Lead, url: string): Option<Entry> {
    Latest(Accepted(e, NameSet(e, ProjectNames(lead)), Listed(ix.byUrl, e.url(url))))
  }

  function Of(e: Names, leads: seq<Lead>, keyed: seq<Lead>, rows: seq<Row>): Index {
    Build(e, leads, keyed, Ordered(rows))
  }

  /** An answer pairs the URL with companies that own it, one of which is the lead's, and no
      other acceptable entry there is more recent. */
  lemma AnswerIsOwned(e: Names, leads: seq<Lead>, keyed: seq<Lead>, rows: seq<Row>, lead: Lead, url: string)
    ensures var r := Answer(e, Of(e, leads, keyed, rows), lead, url);
            r.Some? ==> && r.value.projects <= OwnersOf(e, leads, e.url(url))
                        && exists p :: p in r.value.projects && e.company(p) in NameSet(e, ProjectNames(lead))
  {
    hide OwnersOf, Build, NameSet;
    BuildOwned(e, leads, keyed, Ordered(rows));
    var t, names := Of(e, leads, keyed, rows).byUrl, NameSet(e, ProjectNames(lead));
    var accepted := Accepted(e, names, Listed(t, e.url(url)));
    if accepted != [] {
      var entry := accepted[|accepted| - 1];
      assert entry in accepted;
      var i :| 0 <= i < |Listed(t, e.url(url))| && Listed(t, e.url(url))[i] == entry;
      assert EntryOwned(e, leads, e.url(url), t[e.url(url)][i]);
    }
  }

  /** The order of the input does not matter when the completion times differ. */
  lemma InputOrderDoesNotMatter(e: Names, leads: seq<Lead>, keyed: seq<Lead>, rows: seq<Row>, permuted: seq<Row>,
                                lead: Lead, url: string)
    requires multiset(rows) == multiset(permuted) && TimesDiffer(multiset(rows))
    ensures var r, s := Answer(e, Of(e, leads, keyed, rows), lead, url),
            Answer(e, Of(e, leads, keyed, permuted), lead, url);
            && (r == None <==> s == None)
            && (r.Some? ==> r.value.at.row == s.value.at.row && r.value.projects == s.value.projects)
  {
    hide Ordered, Build, TimesDiffer, NameSet, Accepts;
    OrderedRows(rows);
    OrderedRows(permuted);
    OrderedIncreases(rows);
    OrderedIncreases(permuted);
    IncreasingIsUnique(RowsOf(Ordered(rows)), RowsOf(Ordered(permuted)));
    BuildSame(e, leads, keyed, Ordered(rows), Ordered(permuted));
    var a, b := Listed(Of(e, leads, keyed, rows).byUrl, e.url(url)),
      Listed(Of(e, leads, keyed, permuted).byUrl, e.url(url));
    var names := NameSet(e, ProjectNames(lead));
    AcceptedSame(e, names, a, b);
    var c, d := Accepted(e, names, a), Accepted(e, names, b);
    if c != [] {
      assert Erased(c)[|c| - 1] == Erased(d)[|d| - 1];
    }
  }

  class EvaluationIndex {
    const e: Names
    const leads: seq<Lead>
    const keyed: seq<Lead>
    ghost const rows: seq<Row>
    var aliases: Aliases
    var byUrl: Table
    var byKey: Table

    ghost predicate Valid()
      reads this
    {
      Index(aliases, byUrl, byKey) == Of(e, leads, keyed, rows)
    }

    constructor (e: Names, rows: seq<Row>, leads: seq<Lead>, consolidated: seq<Lead>)
      ensures Valid() && this.e == e && this.leads == leads && this.keyed == leads + consolidated && this.rows == rows
    {
      hide Step, Ordered;
      this.e, this.leads, this.keyed, this.rows := e, leads, leads + consolidated, rows;
      aliases, byUrl, byKey := map[], map[], map[];
      new;
      var xs := Ordered(rows);
      for i := 0 to |xs|
        invariant Index(aliases, byUrl, byKey) == Build(e, leads, keyed, xs[..i])
      {
        assert xs[..i + 1][..i] == xs[..i];
        Add(xs[i]);
      }
      assert xs[..|xs|] == xs;
    }

    /** The loop over the anchors of a row. */
    method Bind(p: Prepared) returns (bindings: set<Pair>)
      ensures bindings == RowBindings(e, leads, aliases, p)
    {
      hide Direct, Bound, Scope, Anchors;
      var anchors, scope := Anchors(e, p), Scope(e, p.row);
      bindings := {};
      for i := 0 to |anchors|
        invariant bindings == Bindings(e, leads, aliases, anchors[..i], scope, p.original == "")
      {
        assert anchors[..i + 1][..i] == anchors[..i];
        bindings := bindings + Bound(Direct(e, leads, anchors[i]), if p.original == ""
                                     then OriginsOf(aliases, anchors[i]) else {}, scope);
      }
      assert anchors[..|anchors|] == anchors;
    }

    /** The bindings become the origins of every URL of the row. */
    method Alias(urls: seq<string>, bindings: set<Pair>)
      modifies `aliases
      ensures aliases == Extend(old(aliases), urls, bindings)
    {
      for i := 0 to |urls|
        invariant aliases == Extend(old(aliases), urls[..i], bindings)
      {
        assert urls[..i + 1][..i] == urls[..i];
        aliases := aliases[urls[i] := OriginsOf(aliases, urls[i]) + bindings];
      }
      assert urls[..|urls|] == urls;
    }

    /** The row is filed under every URL bound, with the companies bound there. */
    method FileBound(at: Placed, bindings: set<Pair>)
      modifies `byUrl
      ensures byUrl == Post(old(byUrl), at, bindings)
    {
      hide UrlsOf, NamesAt;
      var rest := UrlsOf(bindings);
      while rest != {}
        invariant rest <= UrlsOf(bindings) && byUrl.Keys == old(byUrl).Keys + (UrlsOf(bindings) - rest)
        invariant forall u | u in byUrl ::
                    byUrl[u] == Listed(old(byUrl), u) + if u in UrlsOf(bindings) && u !in rest
                      then [Entry(at, NamesAt(bindings, u))] else []
        decreases rest
      {
        var origin :| origin in rest;
        byUrl := byUrl[origin := Listed(byUrl, origin) + [Entry(at, NamesAt(bindings, origin))]];
        rest := rest - {origin};
      }
      assert byUrl == Post(old(byUrl), at, bindings);
    }

    /** One row of the constructor's loop. */
    method Add(x: Placed)
      modifies this
      ensures Index(aliases, byUrl, byKey) == Step(e, leads, keyed, old(Index(aliases, byUrl, byKey)), x)
    {
      hide RowBindings, Prepare, Redirected, Extend, Post, File;
      var p := Prepare(e, Keyed(keyed, x.row.leadKey), x.row);
      var bindings := Bind(p);
      var at := Placed(x.order, Redirected(p, bindings));
      if bindings != {} {
        Alias(p.urls, bindings);
      }
      byKey := File(byKey, x.row.leadKey, at);
      FileBound(at, bindings);
    }

    /** At a real URL the answer is the last acceptable entry, so it is owned and the most
        recent.  Without one the rows of the lead's key take part too. */
    method ForSource(lead: Lead, url: string) returns (r: Option<Entry>)
      requires Valid()
      ensures e.url(url) != "" ==> r == Answer(e, Of(e, leads, keyed, rows), lead, url)
      ensures var normalized, names := e.url(url), NameSet(e, ProjectNames(lead));
              var matches := Listed(byUrl, normalized) + if normalized == "" then Listed(byKey, lead.key) else [];
              && (r == None <==> Accepted(e, names, matches) == [])
              && (r.Some? ==> r.value in matches && Accepts(e, names, r.value)
                              && forall x | x in matches && Accepts(e, names, x) ::
                                   var time, latest := x.at.row.completedAt, r.value.at.row.completedAt;
                                   if time == latest then x.at.order <= r.value.at.order
                                   else latest.Some? && (time.Some? ==> time.value < latest.value))
    {
      hide Build, Ordered, Accepts, From;
      var normalized, names := e.url(url), NameSet(e, ProjectNames(lead));
      var matches := Listed(byUrl, normalized) + if normalized == "" then Listed(byKey, lead.key) else [];
      var scoped := Accepted(e, names, matches);
      r := None;
      for i := 0 to |scoped|
        invariant r == None <==> i == 0
        invariant r.Some? ==> r.value in scoped && forall k | 0 <= k < i :: !Before(r.value.at, scoped[k].at)
      {
        if r == None || Before(r.value.at, scoped[i].at) {
          r := Some(scoped[i]);
        }
      }
      if normalized != "" {
        OrderedAscends(rows);
        BuildAscends(e, leads, keyed, Ordered(rows));
        assert matches == Listed(byUrl, normalized);
        assert EntriesAscend(matches);
        AcceptedAscends(e, names, matches);
      }
    }
  }
}
