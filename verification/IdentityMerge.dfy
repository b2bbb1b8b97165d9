/** The migration that merges jobs of one identity: applications are repointed to the survivor
    of each group, its analysis is kept or taken over, and the other members are deleted. */
module IdentityMerge {
  import opened Wrappers

  datatype Identity = Identity(businessKey: string, nativeJobId: string, detailUrl: string)

  datatype Profile = Profile(organization: string, unit: string, campaign: string, platform: string, tenant: string)

  datatype Job = Job(id: string, createdAt: int, companyId: string, title: string, detailUrl: string,
                     nativeJobId: string,
                     profile: Profile, identity: Option<Identity>)

  datatype Analysis = Analysis(payload: string)

  /** The three tables.  An application refers to a job by its id; none is the empty one. */
  datatype Tables = Tables(jobs: map<string, Job>, applications: map<string, string>, analyses: map<string, Analysis>)

  /** Titles and URLs become identities, and companies profiles, outside the model. */
  datatype Rules = Rules(identifiable: Job -> bool, identity: Job -> Identity, profile: string -> Profile)

  // ----- the order of a group -----

  predicate Less(a: string, b: string) {
    b != "" && (a == "" || a[0] < b[0] || (a[0] == b[0] && Less(a[1..], b[1..])))
  }

  lemma {:induction false} LessIsTotal(a: string, b: string)
    ensures (Less(a, b) || Less(b, a)) <==> a != b
    ensures !(Less(a, b) && Less(b, a))
  {
    if a != "" && b != "" && a[0] == b[0] {
      LessIsTotal(a[1..], b[1..]);
      assert a == [a[0]] + a[1..] && b == [b[0]] + b[1..];
    }
  }

  lemma {:induction false} LessIsTransitive(a: string, b: string, c: string)
    requires Less(a, b) && Less(b, c)
    ensures Less(a, c)
  {
    if a != "" && a[0] == b[0] == c[0] {
      LessIsTransitive(a[1..], b[1..], c[1..]);
    }
  }

  /** Ids are compared as texts: at the first difference, or the shorter first. */
  lemma {:induction false} LessExactly(a: string, b: string)
    ensures Less(a, b) <==>
              || (a <= b && a != b)
              || exists k :: 0 <= k < |a| && k < |b| && a[k] < b[k] && a[..k] == b[..k]
  {
    if a != "" && b != "" {
      if a[0] == b[0] {
        LessExactly(a[1..], b[1..]);
        assert a == [a[0]] + a[1..] && b == [b[0]] + b[1..];
        if k :| 0 <= k < |a| && k < |b| && a[k] < b[k] && a[..k] == b[..k] {
          assert a[1..][k - 1] < b[1..][k - 1] && a[1..][..k - 1] == a[..k][1..] == b[..k][1..] == b[1..][..k - 1];
        }
        if m :| 0 <= m < |a[1..]| && m < |b[1..]| && a[1..][m] < b[1..][m] && a[1..][..m] == b[1..][..m] {
          assert a[m + 1] < b[m + 1] && a[..m + 1] == [a[0]] + a[1..][..m] == [b[0]] + b[1..][..m] == b[..m + 1];
        }
      } else {
        assert a[..0] == b[..0];
        if k :| 0 <= k < |a| && k < |b| && a[k] < b[k] && a[..k] == b[..k] {
          assert k > 0 ==> a[..k][0] == b[..k][0];
        }
      }
    }
  }

  /** Jobs with an application come first, then the older, then the smaller id. */
  predicate Prior(referenced: set<string>, a: Job, b: Job) {
    if a.id in referenced && b.id !in referenced then true
    else if a.id !in referenced && b.id in referenced then false
    else a.createdAt < b.createdAt || (a.createdAt == b.createdAt && Less(a.id, b.id))
  }

  lemma PriorIsTotal(referenced: set<string>, a: Job, b: Job)
    ensures !(Prior(referenced, a, b) && Prior(referenced, b, a))
    ensures a.id != b.id ==> Prior(referenced, a, b) || Prior(referenced, b, a)
  {
    LessIsTotal(a.id, b.id);
  }

  lemma PriorIsTransitive(referenced: set<string>, a: Job, b: Job, c: Job)
    requires Prior(referenced, a, b) && Prior(referenced, b, c)
    ensures Prior(referenced, a, c)
  {
    if Less(a.id, b.id) && Less(b.id, c.id) {
      LessIsTransitive(a.id, b.id, c.id);
    }
  }

  ghost predicate Ascending(referenced: set<string>, g: seq<Job>) {
    forall i, j | 0 <= i < j < |g| :: Prior(referenced, g[i], g[j])
  }

  function Insert(referenced: set<string>, x: Job, g: seq<Job>): (r: seq<Job>)
    ensures |r| == |g| + 1 && forall y :: y in r <==> y in g || y == x
  {
    if g == [] || Prior(referenced, g[|g| - 1], x) then g + [x]
    else
      assert g == g[..|g| - 1] + [g[|g| - 1]];
      Insert(referenced, x, g[..|g| - 1]) + [g[|g| - 1]]
  }

  function Sorted(referenced: set<string>, g: seq<Job>): (r: seq<Job>)
    ensures |r| == |g| && forall y :: y in r <==> y in g
  {
    if g == [] then []
    else
      assert g == g[..|g| - 1] + [g[|g| - 1]];
      Insert(referenced, g[|g| - 1], Sorted(referenced, g[..|g| - 1]))
  }

  lemma {:induction false} InsertAscends(referenced: set<string>, x: Job, g: seq<Job>)
    requires Ascending(referenced, g) && forall y | y in g :: y.id != x.id
    ensures Ascending(referenced, Insert(referenced, x, g))
  {
    hide Prior;
    if g != [] && !Prior(referenced, g[|g| - 1], x) {
      var init, last := g[..|g| - 1], g[|g| - 1];
      assert g == init + [last];
      assert last in g;
      InsertAscends(referenced, x, init);
      PriorIsTotal(referenced, x, last);
      forall y | y in Insert(referenced, x, init) ensures Prior(referenced, y, last) {
        if y != x {
          var k :| 0 <= k < |init| && init[k] == y;
          assert Prior(referenced, g[k], g[|g| - 1]);
        }
      }
      AppendAscends(referenced, Insert(referenced, x, init), last);
    } else {
      forall y | y in g ensures Prior(referenced, y, x) {
        var i :| 0 <= i < |g| && g[i] == y;
        if i < |g| - 1 {
          PriorIsTransitive(referenced, g[i], g[|g| - 1], x);
        }
      }
      AppendAscends(referenced, g, x);
    }
  }

  lemma AppendAscends(referenced: set<string>, g: seq<Job>, x: Job)
    requires Ascending(referenced, g) && forall y | y in g :: Prior(referenced, y, x)
    ensures Ascending(referenced, g + [x])
  {
    hide Prior;
    assert forall i | 0 <= i < |g| :: g[i] in g;
  }

  ghost predicate DistinctIds(g: seq<Job>) {
    forall i, j | 0 <= i < j < |g| :: g[i].id != g[j].id
  }

  lemma {:induction false} SortedAscends(referenced: set<string>, g: seq<Job>)
    requires DistinctIds(g)
    ensures Ascending(referenced, Sorted(referenced, g)) && DistinctIds(Sorted(referenced, g))
  {
    hide Insert, Prior;
    if g != [] {
      var n := |g| - 1;
      SortedAscends(referenced, g[..n]);
      forall y | y in Sorted(referenced, g[..n]) ensures y.id != g[n].id {
        assert y in g[..n];
      }
      InsertAscends(referenced, g[n], Sorted(referenced, g[..n]));
    }
    AscendingDistinct(referenced, Sorted(referenced, g), g);
  }

  lemma AscendingDistinct(referenced: set<string>, r: seq<Job>, g: seq<Job>)
    requires Ascending(referenced, r) && DistinctIds(g) && forall y | y in r :: y in g
    ensures DistinctIds(r)
  {
    hide Prior;
    forall i, j | 0 <= i < j < |r| ensures r[i].id != r[j].id {
      assert r[i] in g && r[j] in g;
      PriorIsTotal(referenced, r[i], r[j]);
    }
  }

  // ----- the groups -----

  /** The business keys in first-seen order. */
  function Keys(rules: Rules, listing: seq<Job>): (r: seq<string>)
    ensures forall k :: k in r <==> exists i :: 0 <= i < |listing| && rules.identity(listing[i]).businessKey == k
  {
    if listing == [] then []
    else
      var keys, key := Keys(rules, listing[..|listing| - 1]), rules.identity(listing[|listing| - 1]).businessKey;
      if key in keys then keys else keys + [key]
  }

  function Members(rules: Rules, listing: seq<Job>, key: string): (r: seq<Job>)
    ensures forall y :: y in r <==> y in listing && rules.identity(y).businessKey == key
  {
    if listing == [] then []
    else
      var last := listing[|listing| - 1];
      assert listing == listing[..|listing| - 1] + [last];
      Members(rules, listing[..|listing| - 1], key) + if rules.identity(last).businessKey == key then [last] else []
  }

  function Groups(rules: Rules, referenced: set<string>, listing: seq<Job>): (r: seq<seq<Job>>) {
    var keys := Keys(rules, listing);
    seq(|keys|, i requires 0 <= i < |keys| => Sorted(referenced, Members(rules, listing, keys[i])))
  }

  // ----- merging -----

  function Lookup(analyses: map<string, Analysis>, id: string): Option<Analysis> {
    if id in analyses then Some(analyses[id]) else None
  }

  function Repointed(applications: map<string, string>, from: string, to: string): map<string, string> {
    map a | a in applications :: if applications[a] == from then to else applications[a]
  }

  /** One duplicate into the survivor.  A duplicate that is gone is passed over. */
  function MergeOne(t: Tables, survivor: string, duplicate: string): Tables {
    if duplicate !in t.jobs then t
    else
      Tables(t.jobs - {duplicate}, Repointed(t.applications, duplicate, survivor),
             if survivor !in t.analyses && duplicate in t.analyses
             then (t.analyses - {duplicate})[survivor := t.analyses[duplicate]]
             else t.analyses - {duplicate})
  }

  function MergeAll(t: Tables, survivor: string, duplicates: seq<Job>): Tables {
    if duplicates == [] then t
    else MergeOne(MergeAll(t, survivor, duplicates[..|duplicates| - 1]), survivor, duplicates[|duplicates| - 1].id)
  }

  /** The survivor takes its company's profile and the identity it was grouped by. */
  function Annotated(rules: Rules, current: Job, listed: Job): Job {
    current.(profile := rules.profile(current.companyId), identity := Some(rules.identity(listed)),
             nativeJobId := rules.identity(listed).nativeJobId)
  }

  function MergeGroup(rules: Rules, t: Tables, g: seq<Job>): Tables {
    if g == [] || g[0].id !in t.jobs then t
    else
      var merged := MergeAll(t, g[0].id, g[1..]);
      if g[0].id in merged.jobs then merged.(jobs := merged.jobs[g[0].id := Annotated(rules, merged.jobs[g[0].id],
          g[0])])
      else merged
  }

  function MergeGroups(rules: Rules, t: Tables, gs: seq<seq<Job>>): Tables {
    if gs == [] then t else MergeGroup(rules, MergeGroups(rules, t, gs[..|gs| - 1]), gs[|gs| - 1])
  }

  // ----- what merging one group does -----

  function Ids(g: seq<Job>): set<string> {
    set i | 0 <= i < |g| :: g[i].id
  }

  lemma IdsMore(g: seq<Job>)
    requires g != []
    ensures Ids(g) == Ids(g[..|g| - 1]) + {g[|g| - 1].id} && Ids(g) == {g[0].id} + Ids(g[1..])
  {
    forall v | v in Ids(g) ensures v in Ids(g[..|g| - 1]) + {g[|g| - 1].id} && v in {g[0].id} + Ids(g[1..]) {
      var i :| 0 <= i < |g| && g[i].id == v;
      if i < |g| - 1 { assert g[..|g| - 1][i].id == v; }
      if i > 0 { assert g[1..][i - 1].id == v; }
    }
    forall v | v in Ids(g[1..]) ensures v in Ids(g) {
      var i :| 0 <= i < |g| - 1 && g[1..][i].id == v;
      assert g[i + 1].id == v;
    }
    forall v | v in Ids(g[..|g| - 1]) ensures v in Ids(g) {
      var i :| 0 <= i < |g| - 1 && g[..|g| - 1][i].id == v;
      assert g[i].id == v;
    }
  }

  /** The analysis of the survivor: its own, or the first one among the duplicates. */
  function Heir(analyses: map<string, Analysis>, survivor: string, duplicates: seq<Job>): Option<Analysis> {
    if duplicates == [] then Lookup(analyses, survivor)
    else
      var earlier := Heir(analyses, survivor, duplicates[..|duplicates| - 1]);
      if earlier.Some? then earlier else Lookup(analyses, duplicates[|duplicates| - 1].id)
  }

  function Followed(applications: map<string, string>, from: set<string>, to: string): map<string, string> {
    map a | a in applications :: if applications[a] in from then to else applications[a]
  }

  ghost predicate Inherits(before: map<string, Analysis>, after: map<string, Analysis>, survivor: string,
                           duplicates: seq<Job>) {
    forall v :: Lookup(after, v)
                == if v == survivor then Heir(before, survivor, duplicates)
                   else if v in Ids(duplicates) then None else Lookup(before, v)
  }

  /** How the tables after merging some duplicates into a survivor relate to those before. */
  ghost predicate Absorbed(t: Tables, r: Tables, survivor: string, duplicates: seq<Job>) {
    && r.jobs == t.jobs - Ids(duplicates)
    && r.applications == Followed(t.applications, Ids(duplicates), survivor)
    && Inherits(t.analyses, r.analyses, survivor, duplicates)
  }

  lemma NothingAbsorbed(t: Tables, survivor: string)
    ensures Absorbed(t, t, survivor, [])
  {
    assert Ids([]) == {};
  }

  lemma InheritsMore(before: map<string, Analysis>, m: map<string, Analysis>, after: map<string, Analysis>,
                     survivor: string, duplicates: seq<Job>)
    requires duplicates != [] && survivor !in Ids(duplicates)
             && duplicates[|duplicates| - 1].id !in Ids(duplicates[..|duplicates| - 1])
    requires Inherits(before, m, survivor, duplicates[..|duplicates| - 1])
    requires var d := duplicates[|duplicates| - 1].id;
             after == if survivor !in m && d in m then (m - {d})[survivor := m[d]] else m - {d}
    ensures Inherits(before, after, survivor, duplicates)
  {
    hide Ids;
    var init, d := duplicates[..|duplicates| - 1], duplicates[|duplicates| - 1].id;
    IdsMore(duplicates);
    assert Lookup(m, d) == Lookup(before, d);
    forall v ensures Lookup(after, v) == if v == survivor then Heir(before, survivor, duplicates)
                                         else if v in Ids(duplicates) then None else Lookup(before, v)
    {
      assert Lookup(m, v) == if v == survivor then Heir(before, survivor, init)
                             else if v in Ids(init) then None else Lookup(before, v);
    }
  }

  lemma {:induction false} MergeAllEffect(t: Tables, survivor: string, duplicates: seq<Job>)
    requires DistinctIds(duplicates) && survivor !in Ids(duplicates) && Ids(duplicates) <= t.jobs.Keys
    ensures Absorbed(t, MergeAll(t, survivor, duplicates), survivor, duplicates)
  {
    hide Ids, Inherits;
    if duplicates == [] {
      NothingAbsorbed(t, survivor);
    } else {
      var init, last := duplicates[..|duplicates| - 1], duplicates[|duplicates| - 1];
      IdsMore(duplicates);
      LastApart(duplicates);
      MergeAllEffect(t, survivor, init);
      var m := MergeAll(t, survivor, init);
      InheritsMore(t.analyses, m.analyses, MergeOne(m, survivor, last.id).analyses, survivor, duplicates);
    }
  }

  lemma LastApart(g: seq<Job>)
    requires g != [] && DistinctIds(g)
    ensures g[|g| - 1].id !in Ids(g[..|g| - 1]) && g[0].id !in Ids(g[1..])
    ensures DistinctIds(g[..|g| - 1]) && DistinctIds(g[1..])
  {
  }

  // ----- what merging all groups does -----

  /** Groups that share no job. */
  ghost predicate Apart(gs: seq<seq<Job>>) {
    && (forall i | 0 <= i < |gs| :: gs[i] != [] && DistinctIds(gs[i]))
    && (forall i, j | 0 <= i < j < |gs| :: Ids(gs[i]) !! Ids(gs[j]))
  }

  ghost predicate Stored(t: Tables, gs: seq<seq<Job>>) {
    forall i | 0 <= i < |gs| :: Ids(gs[i]) <= t.jobs.Keys
  }

  /** The survivor of the group of a job; a job in no group is its own. */
  function Survivor(gs: seq<seq<Job>>, v: string): string {
    if gs == [] then v
    else
      var last := gs[|gs| - 1];
      if last != [] && v in Ids(last) then last[0].id else Survivor(gs[..|gs| - 1], v)
  }

  /** The analysis a job has in the end. */
  function Final(analyses: map<string, Analysis>, gs: seq<seq<Job>>, v: string): Option<Analysis> {
    if gs == [] then Lookup(analyses, v)
    else
      var last := gs[|gs| - 1];
      if last != [] && v == last[0].id then Heir(analyses, v, last[1..])
      else if v in Ids(last) then None
      else Final(analyses, gs[..|gs| - 1], v)
  }

  ghost predicate JobsMerged(t: Tables, r: Tables, gs: seq<seq<Job>>) {
    forall v :: v in r.jobs <==> v in t.jobs && Survivor(gs, v) == v
  }

  ghost predicate AnalysesMerged(t: Tables, r: Tables, gs: seq<seq<Job>>) {
    forall v :: Lookup(r.analyses, v) == Final(t.analyses, gs, v)
  }

  ghost predicate Grouped(gs: seq<seq<Job>>, v: string) {
    exists i :: 0 <= i < |gs| && v in Ids(gs[i])
  }

  ghost predicate JobsAnnotated(rules: Rules, t: Tables, r: Tables, gs: seq<seq<Job>>) {
    && (forall i | 0 <= i < |gs| && gs[i] != [] :: gs[i][0].id in r.jobs && gs[i][0].id in t.jobs
                                    && r.jobs[gs[i][0].id] == Annotated(rules, t.jobs[gs[i][0].id], gs[i][0]))
    && (forall v | v in r.jobs && v in t.jobs && !Grouped(gs, v) :: r.jobs[v] == t.jobs[v])
  }

  function Pointed(applications: map<string, string>, gs: seq<seq<Job>>): map<string, string> {
    map a | a in applications :: Survivor(gs, applications[a])
  }

  /** How the tables after merging the groups relate to those before. */
  ghost predicate Merged(rules: Rules, t: Tables, r: Tables, gs: seq<seq<Job>>) {
    && JobsMerged(t, r, gs)
    && r.applications == Pointed(t.applications, gs)
    && AnalysesMerged(t, r, gs)
    && JobsAnnotated(rules, t, r, gs)
  }

  lemma {:induction false} SurvivorAt(gs: seq<seq<Job>>, i: nat, v: string)
    requires Apart(gs) && i < |gs| && v in Ids(gs[i])
    ensures Survivor(gs, v) == gs[i][0].id
  {
    hide Ids;
    var n := |gs| - 1;
    if i < n {
      assert Ids(gs[i]) !! Ids(gs[n]);
      SurvivorAt(gs[..n], i, v);
    }
  }

  lemma {:induction false} SurvivorElsewhere(gs: seq<seq<Job>>, v: string)
    requires forall i | 0 <= i < |gs| :: v !in Ids(gs[i])
    ensures Survivor(gs, v) == v
  {
    hide Ids;
    if gs != [] {
      SurvivorElsewhere(gs[..|gs| - 1], v);
    }
  }

  lemma {:induction false} FinalElsewhere(analyses: map<string, Analysis>, gs: seq<seq<Job>>, v: string)
    requires forall i | 0 <= i < |gs| :: v !in Ids(gs[i])
    ensures Final(analyses, gs, v) == Lookup(analyses, v)
  {
    hide Ids, Heir;
    if gs != [] {
      assert gs[|gs| - 1] != [] ==> v != gs[|gs| - 1][0].id by { FirstIn(gs[|gs| - 1]); }
      FinalElsewhere(analyses, gs[..|gs| - 1], v);
    }
  }

  lemma FirstIn(g: seq<Job>)
    ensures g != [] ==> g[0].id in Ids(g)
  {
  }

  /** A survivor of some groups is in one of them. */
  lemma {:induction false} SurvivorInGroups(gs: seq<seq<Job>>, v: string, g: seq<Job>)
    requires forall i | 0 <= i < |gs| :: Ids(gs[i]) !! Ids(g)
    ensures v !in Ids(g) ==> Survivor(gs, v) !in Ids(g)
    ensures v in Ids(g) ==> Survivor(gs, v) == v
  {
    hide Ids;
    if gs != [] {
      SurvivorInGroups(gs[..|gs| - 1], v, g);
      assert gs[|gs| - 1] != [] ==> gs[|gs| - 1][0].id in Ids(gs[|gs| - 1]) by { FirstIn(gs[|gs| - 1]); }
      assert Ids(gs[|gs| - 1]) !! Ids(g);
    }
  }

  lemma {:induction false} HeirSame(a: map<string, Analysis>, b: map<string, Analysis>, survivor: string,
                                    duplicates: seq<Job>)
    requires Lookup(a, survivor) == Lookup(b, survivor) && forall v | v in Ids(duplicates) ::
               Lookup(a, v) == Lookup(b, v)
    ensures Heir(a, survivor, duplicates) == Heir(b, survivor, duplicates)
  {
    hide Ids;
    if duplicates != [] {
      IdsMore(duplicates);
      HeirSame(a, b, survivor, duplicates[..|duplicates| - 1]);
    }
  }

  /** One more group, in a state where all its jobs are present. */
  ghost predicate GroupDone(rules: Rules, m: Tables, r: Tables, g: seq<Job>) {
    && g != [] && g[0].id in m.jobs
    && r.jobs == (m.jobs - Ids(g[1..]))[g[0].id := Annotated(rules, m.jobs[g[0].id], g[0])]
    && r.applications == Followed(m.applications, Ids(g[1..]), g[0].id)
    && Inherits(m.analyses, r.analyses, g[0].id, g[1..])
  }

  lemma MergeGroupEffect(rules: Rules, m: Tables, g: seq<Job>)
    requires g != [] && DistinctIds(g) && Ids(g) <= m.jobs.Keys
    ensures GroupDone(rules, m, MergeGroup(rules, m, g), g)
  {
    hide Ids, Inherits, MergeAll, Annotated;
    FirstIn(g);
    IdsMore(g);
    LastApart(g);
    MergeAllEffect(m, g[0].id, g[1..]);
    assert g[0].id in m.jobs && g[0].id !in Ids(g[1..]);
  }

  ghost predicate LastGroup(gs: seq<seq<Job>>) {
    gs != [] && gs[|gs| - 1] != [] && forall i | 0 <= i < |gs| - 1 :: Ids(gs[i]) !! Ids(gs[|gs| - 1])
  }

  lemma StillPresent(rules: Rules, t: Tables, m: Tables, gs: seq<seq<Job>>)
    requires LastGroup(gs) && Stored(t, gs) && JobsMerged(t, m, gs[..|gs| - 1])
    ensures Ids(gs[|gs| - 1]) <= m.jobs.Keys
  {
    hide Ids;
    var n := |gs| - 1;
    forall v | v in Ids(gs[n]) ensures v in m.jobs {
      assert forall i | 0 <= i < n :: gs[..n][i] == gs[i];
      SurvivorInGroups(gs[..n], v, gs[n]);
    }
  }

  lemma GroupJobs(rules: Rules, t: Tables, m: Tables, r: Tables, gs: seq<seq<Job>>)
    requires LastGroup(gs) && DistinctIds(gs[|gs| - 1]) && Stored(t, gs)
    requires JobsMerged(t, m, gs[..|gs| - 1]) && GroupDone(rules, m, r, gs[|gs| - 1])
    ensures JobsMerged(t, r, gs)
  {
    hide Ids, Inherits, Annotated;
    var n := |gs| - 1;
    IdsMore(gs[n]);
    LastApart(gs[n]);
    StillPresent(rules, t, m, gs);
  }

  lemma GroupApplications(rules: Rules, t: Tables, m: Tables, r: Tables, gs: seq<seq<Job>>)
    requires LastGroup(gs) && m.applications == Pointed(t.applications, gs[..|gs| - 1])
             && GroupDone(rules, m, r, gs[|gs| - 1])
    ensures r.applications == Pointed(t.applications, gs)
  {
    hide Ids, Inherits, Annotated;
    var n := |gs| - 1;
    IdsMore(gs[n]);
    forall a | a in t.applications ensures r.applications[a] == Survivor(gs, t.applications[a]) {
      assert forall i | 0 <= i < n :: gs[..n][i] == gs[i];
      SurvivorInGroups(gs[..n], t.applications[a], gs[n]);
    }
  }

  lemma GroupAnalyses(rules: Rules, t: Tables, m: Tables, r: Tables, gs: seq<seq<Job>>)
    requires LastGroup(gs) && DistinctIds(gs[|gs| - 1]) && AnalysesMerged(t, m, gs[..|gs| - 1])
             && GroupDone(rules, m, r, gs[|gs| - 1])
    ensures AnalysesMerged(t, r, gs)
  {
    hide Ids, Annotated;
    var n := |gs| - 1;
    var g := gs[n];
    IdsMore(g);
    LastApart(g);
    forall v | v in Ids(g) ensures Lookup(m.analyses, v) == Lookup(t.analyses, v) {
      assert forall i | 0 <= i < n :: gs[..n][i] == gs[i];
      FinalElsewhere(t.analyses, gs[..n], v);
    }
    HeirSame(m.analyses, t.analyses, g[0].id, g[1..]);
    forall v ensures Lookup(r.analyses, v) == Final(t.analyses, gs, v) {
      assert Lookup(m.analyses, v) == Final(t.analyses, gs[..n], v);
    }
  }

  lemma GroupedNext(gs: seq<seq<Job>>, v: string)
    requires gs != []
    ensures Grouped(gs, v) <==> Grouped(gs[..|gs| - 1], v) || v in Ids(gs[|gs| - 1])
  {
    hide Ids;
    var n := |gs| - 1;
    if Grouped(gs[..n], v) {
      var i :| 0 <= i < n && v in Ids(gs[..n][i]);
      assert v in Ids(gs[i]);
    }
    if Grouped(gs, v) {
      var i :| 0 <= i < |gs| && v in Ids(gs[i]);
      assert i < n ==> v in Ids(gs[..n][i]);
    }
  }

  lemma GroupedAll(gs: seq<seq<Job>>)
    requires gs != []
    ensures forall v :: Grouped(gs, v) <==> Grouped(gs[..|gs| - 1], v) || v in Ids(gs[|gs| - 1])
  {
    hide Ids, Grouped;
    var init, last := gs[..|gs| - 1], gs[|gs| - 1];
    forall v: string ensures Grouped(gs, v) <==> Grouped(init, v) || v in Ids(last) {
      GroupedNext(gs, v);
    }
  }

  lemma NotGrouped(gs: seq<seq<Job>>, v: string)
    requires LastGroup(gs) && v in Ids(gs[|gs| - 1])
    ensures !Grouped(gs[..|gs| - 1], v)
  {
    hide Ids;
    var init := gs[..|gs| - 1];
    forall i | 0 <= i < |init| ensures v !in Ids(init[i]) {
      assert Ids(gs[i]) !! Ids(gs[|gs| - 1]);
    }
  }

  lemma GroupAnnotated(rules: Rules, t: Tables, m: Tables, r: Tables, gs: seq<seq<Job>>)
    requires LastGroup(gs) && DistinctIds(gs[|gs| - 1]) && Stored(t, gs)
    requires JobsAnnotated(rules, t, m, gs[..|gs| - 1]) && GroupDone(rules, m, r, gs[|gs| - 1])
    ensures JobsAnnotated(rules, t, r, gs)
  {
    hide Ids, Inherits, Annotated, Grouped;
    var n := |gs| - 1;
    var g := gs[n];
    IdsMore(g);
    LastApart(g);
    GroupedAll(gs);
    NotGrouped(gs, g[0].id);
    forall i | 0 <= i < n && gs[i] != [] ensures gs[i][0].id !in Ids(g) && gs[i] == gs[..n][i] {
      FirstIn(gs[i]);
    }
    assert g[0].id in t.jobs by { assert Ids(g) <= t.jobs.Keys; }
    assert r.jobs[g[0].id] == Annotated(rules, m.jobs[g[0].id], g[0]);
  }

  lemma {:induction false} MergeGroupsEffect(rules: Rules, t: Tables, gs: seq<seq<Job>>)
    requires Apart(gs) && Stored(t, gs)
    ensures Merged(rules, t, MergeGroups(rules, t, gs), gs)
  {
    hide Ids, MergeGroup, JobsMerged, AnalysesMerged, JobsAnnotated, Pointed, GroupDone;
    if gs == [] {
      NoGroups(rules, t);
    } else {
      var n := |gs| - 1;
      MergeGroupsEffect(rules, t, gs[..n]);
      var m := MergeGroups(rules, t, gs[..n]);
      var r := MergeGroup(rules, m, gs[n]);
      StillPresent(rules, t, m, gs);
      MergeGroupEffect(rules, m, gs[n]);
      GroupJobs(rules, t, m, r, gs);
      GroupApplications(rules, t, m, r, gs);
      GroupAnalyses(rules, t, m, r, gs);
      GroupAnnotated(rules, t, m, r, gs);
    }
  }

  lemma NoGroups(rules: Rules, t: Tables)
    ensures Merged(rules, t, t, [])
  {
    assert Pointed(t.applications, []) == t.applications;
  }

  // ----- the groups of a listing -----

  /** The listing is the job table. */
  ghost predicate Lists(t: Tables, listing: seq<Job>) {
    && DistinctIds(listing) && Ids(listing) == t.jobs.Keys
    && forall i | 0 <= i < |listing| :: listing[i].id in t.jobs && t.jobs[listing[i].id] == listing[i]
  }

  function KeyOf(rules: Rules, j: Job): string {
    rules.identity(j).businessKey
  }

  lemma NoKeys(rules: Rules)
    ensures Keys(rules, []) == [] && forall k: string :: Members(rules, [], k) == []
  {
  }

  lemma KeysNext(rules: Rules, listing: seq<Job>, n: nat)
    requires n < |listing|
    ensures var keys, key := Keys(rules, listing[..n]), KeyOf(rules, listing[n]);
            Keys(rules, listing[..n + 1]) == if key in keys then keys else keys + [key]
  {
    assert listing[..n + 1][..n] == listing[..n];
  }

  lemma MembersNext(rules: Rules, listing: seq<Job>, n: nat, key: string)
    requires n < |listing|
    ensures Members(rules, listing[..n + 1], key)
            == Members(rules, listing[..n], key) + if KeyOf(rules, listing[n]) == key then [listing[n]] else []
  {
    assert listing[..n + 1][..n] == listing[..n];
  }

  lemma {:induction false} KeysDistinct(rules: Rules, listing: seq<Job>)
    ensures forall i, j | 0 <= i < j < |Keys(rules, listing)| :: Keys(rules, listing)[i] != Keys(rules, listing)[j]
  {
    if listing != [] {
      KeysDistinct(rules, listing[..|listing| - 1]);
    }
  }

  lemma {:induction false} MembersDistinct(rules: Rules, listing: seq<Job>, key: string)
    requires DistinctIds(listing)
    ensures DistinctIds(Members(rules, listing, key))
  {
    if listing != [] {
      var init, last := listing[..|listing| - 1], listing[|listing| - 1];
      MembersDistinct(rules, init, key);
      forall i | 0 <= i < |Members(rules, init, key)| ensures Members(rules, init, key)[i].id != last.id {
        assert Members(rules, init, key)[i] in init;
      }
    }
  }

  lemma SameJob(listing: seq<Job>, a: Job, b: Job)
    requires DistinctIds(listing) && a in listing && b in listing && a.id == b.id
    ensures a == b
  {
    var i :| 0 <= i < |listing| && listing[i] == a;
    var j :| 0 <= j < |listing| && listing[j] == b;
    assert i == j;
  }

  /** The group of a key holds the listed jobs of that key, in order. */
  lemma GroupAt(rules: Rules, referenced: set<string>, listing: seq<Job>, i: nat)
    requires DistinctIds(listing) && i < |Keys(rules, listing)|
    ensures var gs, key := Groups(rules, referenced, listing), Keys(rules, listing)[i];
            && |gs| == |Keys(rules, listing)| && gs[i] != [] && DistinctIds(gs[i]) && Ascending(referenced, gs[i])
            && forall j :: j in gs[i] <==> j in listing && KeyOf(rules, j) == key
  {
    hide Sorted, Ascending, Prior;
    var key := Keys(rules, listing)[i];
    assert key in Keys(rules, listing);
    var k :| 0 <= k < |listing| && rules.identity(listing[k]).businessKey == key;
    assert listing[k] in Members(rules, listing, key);
    MembersDistinct(rules, listing, key);
    SortedAscends(referenced, Members(rules, listing, key));
  }

  lemma GroupsApart(rules: Rules, referenced: set<string>, listing: seq<Job>)
    requires DistinctIds(listing)
    ensures Apart(Groups(rules, referenced, listing))
  {
    hide Groups, Keys, DistinctIds;
    var gs := Groups(rules, referenced, listing);
    forall i | 0 <= i < |gs| ensures gs[i] != [] && DistinctIds(gs[i]) {
      GroupsSize(rules, referenced, listing);
      GroupAt(rules, referenced, listing, i);
    }
    forall i, j | 0 <= i < j < |gs| ensures Ids(gs[i]) !! Ids(gs[j]) {
      GroupsSize(rules, referenced, listing);
      GroupsDisjoint(rules, referenced, listing, i, j);
    }
  }

  lemma GroupsSize(rules: Rules, referenced: set<string>, listing: seq<Job>)
    ensures |Groups(rules, referenced, listing)| == |Keys(rules, listing)|
  {
  }

  lemma GroupsDisjoint(rules: Rules, referenced: set<string>, listing: seq<Job>, i: nat, j: nat)
    requires DistinctIds(listing) && i < j < |Groups(rules, referenced, listing)|
    requires |Groups(rules, referenced, listing)| == |Keys(rules, listing)|
    ensures Ids(Groups(rules, referenced, listing)[i]) !! Ids(Groups(rules, referenced, listing)[j])
  {
    hide Groups, Keys, DistinctIds, Ascending;
    var gs := Groups(rules, referenced, listing);
    GroupAt(rules, referenced, listing, i);
    GroupAt(rules, referenced, listing, j);
    KeysDistinct(rules, listing);
    var g: seq<Job>, h: seq<Job> := gs[i], gs[j];
    forall a, b | 0 <= a < |g| && 0 <= b < |h| ensures g[a].id != h[b].id {
      assert g[a] in g && h[b] in h;
      if g[a].id == h[b].id {
        SameJob(listing, g[a], h[b]);
      }
    }
  }

  lemma GroupsStored(rules: Rules, referenced: set<string>, t: Tables, listing: seq<Job>)
    requires Lists(t, listing)
    ensures Stored(t, Groups(rules, referenced, listing))
  {
    hide Groups, Keys, DistinctIds, Ascending;
    var gs := Groups(rules, referenced, listing);
    GroupsSize(rules, referenced, listing);
    forall i | 0 <= i < |gs| ensures Ids(gs[i]) <= t.jobs.Keys {
      GroupAt(rules, referenced, listing, i);
      forall v | v in Ids(gs[i]) ensures v in t.jobs {
        var k :| 0 <= k < |gs[i]| && gs[i][k].id == v;
        assert gs[i][k] in gs[i];
      }
    }
  }

  /** The survivor among the jobs of one key: the first of them. */
  ghost predicate Survives(rules: Rules, referenced: set<string>, listing: seq<Job>, s: Job, key: string) {
    && s in listing && KeyOf(rules, s) == key
    && forall j | j in listing && KeyOf(rules, j) == key && j != s :: Prior(referenced, s, j)
  }

  lemma SurvivorOfJob(rules: Rules, referenced: set<string>, listing: seq<Job>, j: Job) returns (i: nat, s: Job)
    requires DistinctIds(listing) && j in listing
    ensures i < |Groups(rules, referenced, listing)| && Groups(rules, referenced, listing)[i] != []
    ensures s == Groups(rules, referenced, listing)[i][0] && j in Groups(rules, referenced, listing)[i]
    ensures Survives(rules, referenced, listing, s, KeyOf(rules, j))
    ensures s in listing && KeyOf(rules, s) == KeyOf(rules, j)
    ensures Survivor(Groups(rules, referenced, listing), j.id) == s.id
  {
    hide Groups, DistinctIds, Prior;
    var keys := Keys(rules, listing);
    var k :| 0 <= k < |listing| && listing[k] == j;
    assert KeyOf(rules, j) in keys;
    i :| 0 <= i < |keys| && keys[i] == KeyOf(rules, j);
    GroupAt(rules, referenced, listing, i);
    GroupsApart(rules, referenced, listing);
    var g := Groups(rules, referenced, listing)[i];
    s := g[0];
    assert s in g && j in g;
    var m :| 0 <= m < |g| && g[m] == j;
    SurvivorAt(Groups(rules, referenced, listing), i, j.id);
    forall o | o in listing && KeyOf(rules, o) == KeyOf(rules, j) && o != s ensures Prior(referenced, s, o) {
      assert o in g;
      var n :| 0 <= n < |g| && g[n] == o;
    }
  }

  // ----- the merged catalog -----

  function After(rules: Rules, referenced: set<string>, t: Tables, listing: seq<Job>): Tables {
    MergeGroups(rules, t, Groups(rules, referenced, listing))
  }

  lemma ResultMerged(rules: Rules, referenced: set<string>, t: Tables, listing: seq<Job>)
    requires Lists(t, listing)
    ensures Merged(rules, t, After(rules, referenced, t, listing), Groups(rules, referenced, listing))
  {
    hide Merged, Groups;
    GroupsApart(rules, referenced, listing);
    GroupsStored(rules, referenced, t, listing);
    MergeGroupsEffect(rules, t, Groups(rules, referenced, listing));
  }

  lemma ListedJob(t: Tables, listing: seq<Job>, v: string)
    requires Lists(t, listing) && v in t.jobs
    ensures t.jobs[v] in listing && t.jobs[v].id == v
  {
    assert v in Ids(listing);
    var i :| 0 <= i < |listing| && listing[i].id == v;
  }

  /** One listed job: its identity has a survivor in the result, which is itself or not. */
  lemma JobAfter(rules: Rules, referenced: set<string>, t: Tables, listing: seq<Job>, v: string) returns (s: Job)
    requires Lists(t, listing) && v in t.jobs
    ensures var r := After(rules, referenced, t, listing);
            && s.id in r.jobs && s.id in t.jobs && t.jobs[s.id] == s && KeyOf(rules, s) == KeyOf(rules, t.jobs[v])
            && r.jobs[s.id] == Annotated(rules, s, s)
            && (v in r.jobs <==> s.id == v)
            && (v in r.jobs <==> Survives(rules, referenced, listing, t.jobs[v], KeyOf(rules, t.jobs[v])))
  {
    hide Groups, DistinctIds, Prior, MergeGroups, Annotated, AnalysesMerged, Pointed, Ids, Lists, Survives;
    ResultMerged(rules, referenced, t, listing);
    var i: nat;
    ListedJob(t, listing, v);
    JobsDistinct(t, listing);
    i, s := SurvivorOfJob(rules, referenced, listing, t.jobs[v]);
    StoredAs(t, listing, s);
    SurvivesOnce(rules, referenced, listing, s, t.jobs[v]);
  }

  /** The jobs left are the survivors, each with its identity recorded, and no two share a
      business key. */
  lemma OneJobPerIdentity(rules: Rules, referenced: set<string>, t: Tables, listing: seq<Job>)
    requires Lists(t, listing)
    ensures var r := After(rules, referenced, t, listing);
            && (forall v :: v in r.jobs
                            <==> && v in t.jobs
                                 && Survives(rules, referenced, listing, t.jobs[v], KeyOf(rules, t.jobs[v])))
            && (forall v | v in r.jobs :: r.jobs[v] == Annotated(rules, t.jobs[v], t.jobs[v]))
            && (forall v, w | v in r.jobs && w in r.jobs && KeyOf(rules, t.jobs[v]) == KeyOf(rules, t.jobs[w]) ::
                  v == w)
            && (forall j | j in listing :: exists v :: v in r.jobs && KeyOf(rules, t.jobs[v]) == KeyOf(rules, j))
  {
    hide Groups, MergeGroups, Annotated, Lists, Survives, KeyOf, After;
    var r := After(rules, referenced, t, listing);
    ResultJobs(rules, referenced, t, listing);
    forall v | v in t.jobs
      ensures v in r.jobs <==> Survives(rules, referenced, listing, t.jobs[v], KeyOf(rules, t.jobs[v]))
      ensures v in r.jobs ==> r.jobs[v] == Annotated(rules, t.jobs[v], t.jobs[v])
    {
      var s := JobAfter(rules, referenced, t, listing, v);
    }
    forall v, w | v in r.jobs && w in r.jobs && KeyOf(rules, t.jobs[v]) == KeyOf(rules, t.jobs[w]) ensures v == w {
      ListedJob(t, listing, v);
      ListedJob(t, listing, w);
      SurvivesOnce(rules, referenced, listing, t.jobs[v], t.jobs[w]);
    }
    forall j | j in listing ensures exists v :: v in r.jobs && KeyOf(rules, t.jobs[v]) == KeyOf(rules, j) {
      StoredAs(t, listing, j);
      var s := JobAfter(rules, referenced, t, listing, j.id);
    }
  }

  /** A job is left iff every other one of its identity has it before itself: a referenced one
      before one that is not, else the older, else the one with the smaller id.  It then holds
      its identity and its company's profile, and is otherwise as it was. */
  lemma SurvivorExactly(rules: Rules, referenced: set<string>, t: Tables, listing: seq<Job>, v: string)
    requires Lists(t, listing) && v in t.jobs
    ensures var r, s := After(rules, referenced, t, listing), t.jobs[v];
            && (v in r.jobs <==>
                  forall j | j in listing && j != s && rules.identity(j).businessKey == rules.identity(s).businessKey ::
                    if (s.id in referenced) != (j.id in referenced) then s.id in referenced
                    else s.createdAt < j.createdAt || (s.createdAt == j.createdAt && Less(s.id, j.id)))
            && (v in r.jobs ==>
                  && r.jobs[v].nativeJobId == rules.identity(s).nativeJobId
                  && r.jobs[v].identity == Some(rules.identity(s)) && r.jobs[v].profile == rules.profile(s.companyId)
                  && r.jobs[v].id == s.id && r.jobs[v].createdAt == s.createdAt
                  && r.jobs[v].companyId == s.companyId && r.jobs[v].title == s.title
                  && r.jobs[v].detailUrl == s.detailUrl)
  {
    hide After, Lists, Less;
    OneJobPerIdentity(rules, referenced, t, listing);
    ListedJob(t, listing, v);
  }

  lemma ResultJobs(rules: Rules, referenced: set<string>, t: Tables, listing: seq<Job>)
    requires Lists(t, listing)
    ensures After(rules, referenced, t, listing).jobs.Keys <= t.jobs.Keys
  {
    hide Groups, MergeGroups, AnalysesMerged, Pointed, Lists, JobsAnnotated;
    ResultMerged(rules, referenced, t, listing);
  }

  lemma JobsDistinct(t: Tables, listing: seq<Job>)
    requires Lists(t, listing)
    ensures DistinctIds(listing)
  {
  }

  lemma StoredAs(t: Tables, listing: seq<Job>, j: Job)
    requires Lists(t, listing) && j in listing
    ensures j.id in t.jobs && t.jobs[j.id] == j
  {
  }

  lemma SurvivesOnce(rules: Rules, referenced: set<string>, listing: seq<Job>, a: Job, b: Job)
    requires Survives(rules, referenced, listing, a, KeyOf(rules, b))
    ensures Survives(rules, referenced, listing, b, KeyOf(rules, b)) ==> a == b
  {
    hide Prior;
    PriorIsTotal(referenced, a, b);
  }

  /** Every application is kept.  One that referred to a listed job refers to the survivor of
      that job's identity, any other is unchanged. */
  lemma ApplicationsKept(rules: Rules, referenced: set<string>, t: Tables, listing: seq<Job>)
    requires Lists(t, listing)
    ensures var r := After(rules, referenced, t, listing);
            && r.applications.Keys == t.applications.Keys
            && forall a | a in t.applications ::
                 if t.applications[a] in t.jobs
                 then r.applications[a] in r.jobs && r.applications[a] in t.jobs
                      && KeyOf(rules, t.jobs[r.applications[a]]) == KeyOf(rules, t.jobs[t.applications[a]])
                 else r.applications[a] == t.applications[a]
  {
    hide Groups, DistinctIds, Prior, MergeGroups, Annotated, AnalysesMerged, Ids, Lists;
    ResultMerged(rules, referenced, t, listing);
    var r, gs := After(rules, referenced, t, listing), Groups(rules, referenced, listing);
    forall a | a in t.applications
      ensures if t.applications[a] in t.jobs
              then r.applications[a] in r.jobs && r.applications[a] in t.jobs
                   && KeyOf(rules, t.jobs[r.applications[a]]) == KeyOf(rules, t.jobs[t.applications[a]])
              else r.applications[a] == t.applications[a]
    {
      var v := t.applications[a];
      if v in t.jobs {
        ListedJob(t, listing, v);
        JobsDistinct(t, listing);
        var i, s := SurvivorOfJob(rules, referenced, listing, t.jobs[v]);
        StoredAs(t, listing, s);
      } else {
        GroupsStored(rules, referenced, t, listing);
        SurvivorElsewhere(gs, v);
      }
    }
  }

  /** The heir's analysis is that of the first member that has one. */
  lemma {:induction false} HeirIsFirst(analyses: map<string, Analysis>, g: seq<Job>)
    requires g != []
    ensures var h := Heir(analyses, g[0].id, g[1..]);
            && (h == None <==> forall i | 0 <= i < |g| :: g[i].id !in analyses)
            && (h.Some? ==> exists k :: 0 <= k < |g| && g[k].id in analyses && analyses[g[k].id] == h.value
                                        && forall i | 0 <= i < k :: g[i].id !in analyses)
  {
    if |g| > 1 {
      var init := g[..|g| - 1];
      HeirIsFirst(analyses, init);
      assert g[1..][..|g| - 2] == init[1..];
      assert forall i | 0 <= i < |init| :: init[i] == g[i];
    }
  }

  lemma {:induction false} FinalOfSurvivor(analyses: map<string, Analysis>, gs: seq<seq<Job>>, i: nat)
    requires Apart(gs) && i < |gs|
    ensures Final(analyses, gs, gs[i][0].id) == Heir(analyses, gs[i][0].id, gs[i][1..])
  {
    hide Ids, Heir;
    var n := |gs| - 1;
    if i < n {
      assert Ids(gs[i]) !! Ids(gs[n]);
      FirstIn(gs[i]);
      FirstIn(gs[n]);
      FinalOfSurvivor(analyses, gs[..n], i);
    }
  }

  /** What a group's order says about the jobs of its key. */
  lemma FirstMember(referenced: set<string>, analyses: map<string, Analysis>, g: seq<Job>, k: nat)
    requires Ascending(referenced, g) && k < |g| && forall i | 0 <= i < k :: g[i].id !in analyses
    ensures forall o | o in g && Prior(referenced, o, g[k]) :: o.id !in analyses
  {
    hide Prior;
    forall o | o in g && Prior(referenced, o, g[k]) ensures o.id !in analyses {
      var i :| 0 <= i < |g| && g[i] == o;
      PriorIsTotal(referenced, o, g[k]);
    }
  }

  /** A survivor has an analysis exactly when a job of its identity had one: its own if it had
      one, else that of the first such job. */
  lemma AnalysisInherited(rules: Rules, referenced: set<string>, t: Tables, listing: seq<Job>, v: string)
    requires Lists(t, listing) && v in After(rules, referenced, t, listing).jobs
    ensures var r := After(rules, referenced, t, listing);
            && v in t.jobs
            && (v in r.analyses <==> exists j ::
                  j in listing && KeyOf(rules, j) == KeyOf(rules, t.jobs[v]) && j.id in t.analyses)
            && (v in t.analyses ==> v in r.analyses && r.analyses[v] == t.analyses[v])
            && (v in r.analyses ==>
                  exists j :: j in listing && KeyOf(rules, j) == KeyOf(rules, t.jobs[v]) && j.id in t.analyses
                              && r.analyses[v] == t.analyses[j.id]
                              && forall o | o in listing && KeyOf(rules, o) == KeyOf(rules, j)
                                && Prior(referenced, o, j) :: o.id !in t.analyses)
  {
    hide Groups, DistinctIds, Prior, MergeGroups, Annotated, Pointed, Ids, Lists, Heir, Final;
    ResultMerged(rules, referenced, t, listing);
    var r, gs := After(rules, referenced, t, listing), Groups(rules, referenced, listing);
    ListedJob(t, listing, v);
    JobsDistinct(t, listing);
    var i, s := SurvivorOfJob(rules, referenced, listing, t.jobs[v]);
    GroupsSize(rules, referenced, listing);
    GroupAt(rules, referenced, listing, i);
    GroupsApart(rules, referenced, listing);
    var g := gs[i];
    assert s.id == v;
    FinalOfSurvivor(t.analyses, gs, i);
    HeirIsFirst(t.analyses, g);
    assert Lookup(r.analyses, v) == Heir(t.analyses, v, g[1..]);
    assert t.jobs[v] in g && g[0].id == v;
    if v in r.analyses {
      var k :| 0 <= k < |g| && g[k].id in t.analyses && t.analyses[g[k].id] == r.analyses[v]
        && forall i | 0 <= i < k :: g[i].id !in t.analyses;
      assert g[k] in g;
      FirstMember(referenced, t.analyses, g, k);
    }
    if j :| j in listing && KeyOf(rules, j) == KeyOf(rules, t.jobs[v]) && j.id in t.analyses {
      assert j in g;
    }
  }

  // ----- what no listing can disturb -----

  /** Jobs, analyses and references of an id outside `ids` are as before, and no reference to
      it is new. */
  ghost predicate LeftAlone(t: Tables, r: Tables, ids: set<string>) {
    && r.applications.Keys == t.applications.Keys
    && (forall a | a in t.applications && t.applications[a] !in ids :: r.applications[a] == t.applications[a])
    && (forall a | a in t.applications && t.applications[a] in ids :: r.applications[a] in ids)
    && (forall v | v !in ids :: (v in r.jobs <==> v in t.jobs) && (v in t.jobs ==> r.jobs[v] == t.jobs[v]))
    && (forall v | v !in ids :: Lookup(r.analyses, v) == Lookup(t.analyses, v))
  }

  lemma MergeOneLeaves(t: Tables, survivor: string, duplicate: string, ids: set<string>)
    requires survivor in ids && duplicate in ids
    ensures LeftAlone(t, MergeOne(t, survivor, duplicate), ids)
  {
  }

  lemma LeftAloneTwice(t: Tables, m: Tables, r: Tables, ids: set<string>)
    requires LeftAlone(t, m, ids) && LeftAlone(m, r, ids)
    ensures LeftAlone(t, r, ids)
  {
    hide Lookup;
  }

  lemma {:induction false} MergeAllLeaves(t: Tables, survivor: string, duplicates: seq<Job>, ids: set<string>)
    requires survivor in ids && forall j | j in duplicates :: j.id in ids
    ensures LeftAlone(t, MergeAll(t, survivor, duplicates), ids)
  {
    hide LeftAlone, MergeOne;
    if duplicates == [] {
      NothingTouched(t, ids);
    } else {
      var n := |duplicates| - 1;
      MergeAllLeaves(t, survivor, duplicates[..n], ids);
      MergeOneLeaves(MergeAll(t, survivor, duplicates[..n]), survivor, duplicates[n].id, ids);
      LeftAloneTwice(t, MergeAll(t, survivor, duplicates[..n]), MergeAll(t, survivor, duplicates), ids);
    }
  }

  lemma NothingTouched(t: Tables, ids: set<string>)
    ensures LeftAlone(t, t, ids)
  {
  }

  ghost predicate Within(g: seq<Job>, ids: set<string>) {
    forall j | j in g :: j.id in ids
  }

  lemma MergeGroupLeaves(rules: Rules, t: Tables, g: seq<Job>, ids: set<string>)
    requires Within(g, ids)
    ensures LeftAlone(t, MergeGroup(rules, t, g), ids)
  {
    hide MergeAll, Annotated;
    if g == [] {
      NothingTouched(t, ids);
    } else {
      assert g[0] in g;
      MergeAllLeaves(t, g[0].id, g[1..], ids);
    }
  }

  lemma {:induction false} MergeGroupsLeave(rules: Rules, t: Tables, gs: seq<seq<Job>>, ids: set<string>)
    requires forall i | 0 <= i < |gs| :: Within(gs[i], ids)
    ensures LeftAlone(t, MergeGroups(rules, t, gs), ids)
  {
    hide LeftAlone, MergeGroup, Within;
    if gs == [] {
      NothingTouched(t, ids);
    } else {
      var n := |gs| - 1;
      MergeGroupsLeave(rules, t, gs[..n], ids);
      MergeGroupLeaves(rules, MergeGroups(rules, t, gs[..n]), gs[n], ids);
      LeftAloneTwice(t, MergeGroups(rules, t, gs[..n]), MergeGroups(rules, t, gs), ids);
    }
  }

  /** Whatever was read and whatever has changed since: applications are kept, and nothing that
      concerns a job outside the listing is touched. */
  lemma OthersLeftAlone(rules: Rules, referenced: set<string>, t: Tables, listing: seq<Job>)
    ensures LeftAlone(t, After(rules, referenced, t, listing), Ids(listing))
  {
    hide LeftAlone, MergeGroups, Sorted, Members, Keys;
    var gs := Groups(rules, referenced, listing);
    forall i | 0 <= i < |gs| ensures Within(gs[i], Ids(listing)) {
      forall j: Job | j in gs[i] ensures j.id in Ids(listing) {
        assert j in listing;
        var k :| 0 <= k < |listing| && listing[k] == j;
      }
    }
    MergeGroupsLeave(rules, t, gs, Ids(listing));
  }

  // ----- what the migration reports -----

  function Referring(applications: map<string, string>, v: string): set<string> {
    set a | a in applications && applications[a] == v
  }

  /** The applications repointed while merging one group, as the database counts them. */
  function Links(t: Tables, survivor: string, duplicates: seq<Job>): nat {
    if duplicates == [] then 0
    else
      var m, d := MergeAll(t, survivor, duplicates[..|duplicates| - 1]), duplicates[|duplicates| - 1].id;
      Links(t, survivor, duplicates[..|duplicates| - 1]) + if d in m.jobs then |Referring(m.applications, d)| else 0
  }

  function TotalLinks(rules: Rules, t: Tables, gs: seq<seq<Job>>): nat {
    if gs == [] then 0
    else
      var m, g := MergeGroups(rules, t, gs[..|gs| - 1]), gs[|gs| - 1];
      TotalLinks(rules, t, gs[..|gs| - 1]) + if g == [] || g[0].id !in m.jobs then 0 else Links(m, g[0].id, g[1..])
  }

  function ReferringAny(applications: map<string, string>, from: set<string>): set<string> {
    set a | a in applications && applications[a] in from
  }

  lemma ReferringAfter(applications: map<string, string>, from: set<string>, to: string, d: string)
    requires d !in from && d != to
    ensures Referring(Followed(applications, from, to), d) == Referring(applications, d)
  {
  }

  lemma ReferringOneMore(applications: map<string, string>, from: set<string>, d: string)
    requires d !in from
    ensures |ReferringAny(applications, from + {d})|
            == |ReferringAny(applications, from)| + |Referring(applications, d)|
  {
    assert ReferringAny(applications, from + {d}) == ReferringAny(applications, from) + Referring(applications, d);
  }

  lemma {:induction false} LinksCount(t: Tables, survivor: string, duplicates: seq<Job>)
    requires DistinctIds(duplicates) && survivor !in Ids(duplicates) && Ids(duplicates) <= t.jobs.Keys
    ensures Links(t, survivor, duplicates) == |ReferringAny(t.applications, Ids(duplicates))|
  {
    hide Ids, DistinctIds, Inherits, MergeAll, ReferringAny, Referring, Followed;
    if duplicates == [] {
      NoneReferring(t.applications);
    } else {
      var init, d := duplicates[..|duplicates| - 1], duplicates[|duplicates| - 1].id;
      IdsMore(duplicates);
      LastApart(duplicates);
      LinksCount(t, survivor, init);
      MergeAllEffect(t, survivor, init);
      ReferringAfter(t.applications, Ids(init), survivor, d);
      ReferringOneMore(t.applications, Ids(init), d);
    }
  }

  lemma NoneReferring(applications: map<string, string>)
    ensures ReferringAny(applications, Ids([])) == {}
  {
    NoIds();
  }

  lemma NoIds()
    ensures Ids([]) == {}
  {
  }

  /** The applications whose reference the groups move. */
  function Moved(applications: map<string, string>, gs: seq<seq<Job>>): set<string> {
    set a | a in applications && Survivor(gs, applications[a]) != applications[a]
  }

  lemma MovedMore(t: Tables, gs: seq<seq<Job>>)
    requires LastGroup(gs) && DistinctIds(gs[|gs| - 1])
    ensures var init, g := gs[..|gs| - 1], gs[|gs| - 1];
            && ReferringAny(Pointed(t.applications, init), Ids(g[1..])) == ReferringAny(t.applications, Ids(g[1..]))
            && Moved(t.applications, gs) == Moved(t.applications, init) + ReferringAny(t.applications, Ids(g[1..]))
            && Moved(t.applications, init) !! ReferringAny(t.applications, Ids(g[1..]))
  {
    hide Ids, DistinctIds;
    var init, g := gs[..|gs| - 1], gs[|gs| - 1];
    IdsMore(g);
    LastApart(g);
    assert forall i | 0 <= i < |init| :: init[i] == gs[i];
    forall a | a in t.applications
      ensures Survivor(init, t.applications[a]) in Ids(g) <==> t.applications[a] in Ids(g)
      ensures t.applications[a] in Ids(g) ==> Survivor(init, t.applications[a]) == t.applications[a]
    {
      SurvivorInGroups(init, t.applications[a], g);
    }
  }

  lemma {:induction false} TotalLinksCount(rules: Rules, t: Tables, gs: seq<seq<Job>>)
    requires Apart(gs) && Stored(t, gs)
    ensures TotalLinks(rules, t, gs) == |Moved(t.applications, gs)|
  {
    hide Ids, DistinctIds, MergeGroup, JobsMerged, AnalysesMerged, JobsAnnotated, Pointed, Moved, ReferringAny, Links;
    if gs == [] {
      assert Moved(t.applications, []) == {} by { NothingMoved(t); }
    } else {
      var n := |gs| - 1;
      TotalLinksCount(rules, t, gs[..n]);
      MergeGroupsEffect(rules, t, gs[..n]);
      var m := MergeGroups(rules, t, gs[..n]);
      StillPresent(rules, t, m, gs);
      FirstIn(gs[n]);
      IdsMore(gs[n]);
      LastApart(gs[n]);
      LinksCount(m, gs[n][0].id, gs[n][1..]);
      MovedMore(t, gs);
    }
  }

  lemma NothingMoved(t: Tables)
    ensures Moved(t.applications, []) == {}
  {
  }

  function Sizes(gs: seq<seq<Job>>): nat {
    if gs == [] then 0 else Sizes(gs[..|gs| - 1]) + |gs[|gs| - 1]|
  }

  /** The members beyond the first, summed over the groups that have several. */
  function ToMerge(gs: seq<seq<Job>>): nat {
    if gs == [] then 0
    else
      var g := gs[|gs| - 1];
      ToMerge(gs[..|gs| - 1]) + if |g| > 1 then |g| - 1 else 0
  }

  function Several(gs: seq<seq<Job>>): nat {
    if gs == [] then 0 else Several(gs[..|gs| - 1]) + if |gs[|gs| - 1]| > 1 then 1 else 0
  }

  /** It counts the groups with more than one member. */
  lemma {:induction false} SeveralExactly(gs: seq<seq<Job>>)
    ensures Several(gs) == |set i | 0 <= i < |gs| && |gs[i]| > 1|
  {
    var larger := set i | 0 <= i < |gs| && |gs[i]| > 1;
    if gs == [] {
      assert larger == {};
    } else {
      var n := |gs| - 1;
      var init := gs[..n];
      SeveralExactly(init);
      assert larger == (set i | 0 <= i < |init| && |init[i]| > 1) + if |gs[n]| > 1 then {n} else {};
    }
  }

  lemma {:induction false} ToMergeSizes(gs: seq<seq<Job>>)
    requires forall i | 0 <= i < |gs| :: gs[i] != []
    ensures ToMerge(gs) == Sizes(gs) - |gs|
  {
    if gs != [] {
      ToMergeSizes(gs[..|gs| - 1]);
    }
  }

  function MemberGroups(rules: Rules, listing: seq<Job>, keys: seq<string>): seq<seq<Job>> {
    seq(|keys|, i requires 0 <= i < |keys| => Members(rules, listing, keys[i]))
  }

  lemma {:induction false} OneMoreMember(rules: Rules, listing: seq<Job>, keys: seq<string>)
    requires listing != [] && forall i, j | 0 <= i < j < |keys| :: keys[i] != keys[j]
    ensures Sizes(MemberGroups(rules, listing, keys))
            == Sizes(MemberGroups(rules, listing[..|listing| - 1], keys))
              + if KeyOf(rules, listing[|listing| - 1]) in keys then 1 else 0
  {
    hide Members, MemberGroups, Sizes;
    if keys == [] {
      NoGroupSizes(rules, listing);
      NoGroupSizes(rules, listing[..|listing| - 1]);
    } else {
      var n, m := |keys| - 1, |listing| - 1;
      OneMoreMember(rules, listing, keys[..n]);
      MemberSizes(rules, listing, keys);
      MemberSizes(rules, listing[..m], keys);
      assert listing[..m + 1] == listing;
      MembersNext(rules, listing, m, keys[n]);
      assert keys == keys[..n] + [keys[n]];
    }
  }

  lemma NoGroupSizes(rules: Rules, listing: seq<Job>)
    ensures Sizes(MemberGroups(rules, listing, [])) == 0
  {
  }

  lemma MemberSizes(rules: Rules, listing: seq<Job>, keys: seq<string>)
    requires keys != []
    ensures var n := |keys| - 1;
            Sizes(MemberGroups(rules, listing, keys))
            == Sizes(MemberGroups(rules, listing, keys[..n])) + |Members(rules, listing, keys[n])|
  {
    var n := |keys| - 1;
    assert MemberGroups(rules, listing, keys)[..n] == MemberGroups(rules, listing, keys[..n]);
  }

  /** The groups hold every listed job once. */
  lemma {:induction false} MembersCover(rules: Rules, listing: seq<Job>, keys: seq<string>)
    requires forall i, j | 0 <= i < j < |keys| :: keys[i] != keys[j]
    requires forall i | 0 <= i < |listing| :: KeyOf(rules, listing[i]) in keys
    ensures Sizes(MemberGroups(rules, listing, keys)) == |listing|
  {
    if listing == [] {
      NoMembers(rules, keys);
    } else {
      MembersCover(rules, listing[..|listing| - 1], keys);
      OneMoreMember(rules, listing, keys);
    }
  }

  lemma {:induction false} NoMembers(rules: Rules, keys: seq<string>)
    ensures Sizes(MemberGroups(rules, [], keys)) == 0
  {
    if keys != [] {
      assert MemberGroups(rules, [], keys)[..|keys| - 1] == MemberGroups(rules, [], keys[..|keys| - 1]);
      NoMembers(rules, keys[..|keys| - 1]);
    }
  }

  lemma {:induction false} SameSizes(gs: seq<seq<Job>>, hs: seq<seq<Job>>)
    requires |gs| == |hs| && forall i | 0 <= i < |gs| :: |gs[i]| == |hs[i]|
    ensures Sizes(gs) == Sizes(hs)
  {
    if gs != [] {
      SameSizes(gs[..|gs| - 1], hs[..|gs| - 1]);
    }
  }

  /** The jobs to merge are those beyond one for each identity. */
  lemma DuplicatesCounted(rules: Rules, referenced: set<string>, listing: seq<Job>)
    requires DistinctIds(listing)
    ensures ToMerge(Groups(rules, referenced, listing)) == |listing| - |Keys(rules, listing)|
  {
    var gs, keys := Groups(rules, referenced, listing), Keys(rules, listing);
    forall i | 0 <= i < |gs| ensures gs[i] != [] {
      GroupAt(rules, referenced, listing, i);
    }
    ToMergeSizes(gs);
    SameSizes(gs, MemberGroups(rules, listing, keys));
    KeysDistinct(rules, listing);
    MembersCover(rules, listing, keys);
  }

  function Referenced(applications: map<string, string>): set<string> {
    set a | a in applications && applications[a] != "" :: applications[a]
  }

  /** A job is referenced iff some application refers to it; none refers to the empty id. */
  lemma ReferencedExactly(applications: map<string, string>, id: string)
    ensures id in Referenced(applications) <==> id != "" && exists a | a in applications :: applications[a] == id
  {
  }

  datatype Summary = Summary(jobs: nat, identityGroups: nat, duplicateGroups: nat, toMerge: nat, repointed: nat,
                             applied: bool)

  /** The table of groups after the first `n` jobs. */
  ghost predicate Tabled(rules: Rules, listing: seq<Job>, n: nat, order: seq<string>, groups: map<string, seq<Job>>)
    requires n <= |listing|
  {
    && order == Keys(rules, listing[..n]) && (forall k :: k in groups <==> k in order)
    && forall k: string :: Members(rules, listing[..n], k) == if k in groups then groups[k] else []
  }

  lemma NothingTabled(rules: Rules, listing: seq<Job>)
    ensures Tabled(rules, listing, 0, [], map[])
  {
    NoKeys(rules);
    assert listing[..0] == [];
  }

  lemma TabledNext(rules: Rules, listing: seq<Job>, n: nat, order: seq<string>, groups: map<string, seq<Job>>)
    requires n < |listing| && Tabled(rules, listing, n, order, groups)
    ensures var key := KeyOf(rules, listing[n]);
            var next := groups[key := (if key in groups then groups[key] else []) + [listing[n]]];
            Tabled(rules, listing, n + 1, if key in groups then order else order + [key], next)
  {
    hide Keys, Members;
    var key := KeyOf(rules, listing[n]);
    KeysNext(rules, listing, n);
    var next := groups[key := (if key in groups then groups[key] else []) + [listing[n]]];
    forall k: string ensures Members(rules, listing[..n + 1], k) == if k in next then next[k] else [] {
      MembersNext(rules, listing, n, k);
    }
  }

  lemma TabledAll(rules: Rules, listing: seq<Job>, order: seq<string>, groups: map<string, seq<Job>>)
    requires Tabled(rules, listing, |listing|, order, groups)
    ensures order == Keys(rules, listing) && (forall k :: k in groups <==> k in order)
    ensures forall k | k in groups :: groups[k] == Members(rules, listing, k)
  {
    hide Keys, Members;
    assert listing[..|listing|] == listing;
  }

  class Catalog {
    var jobs: map<string, Job>
    var applications: map<string, string>
    var analyses: map<string, Analysis>

    ghost function State(): Tables
      reads this
    {
      Tables(jobs, applications, analyses)
    }

    constructor (t: Tables)
      ensures State() == t
    {
      jobs, applications, analyses := t.jobs, t.applications, t.analyses;
    }

    /** The groups as a table filled job by job. */
    static method GroupJobs(rules: Rules, listing: seq<Job>) returns (order: seq<string>, groups: map<string, seq<Job>>)
      ensures order == Keys(rules, listing)
      ensures forall k :: k in groups <==> k in order
      ensures forall k | k in groups :: groups[k] == Members(rules, listing, k)
    {
      hide Tabled;
      order, groups := [], map[];
      NothingTabled(rules, listing);
      for n := 0 to |listing|
        invariant Tabled(rules, listing, n, order, groups)
      {
        TabledNext(rules, listing, n, order, groups);
        var key := rules.identity(listing[n]).businessKey;
        ghost var next := groups[key := (if key in groups then groups[key] else []) + [listing[n]]];
        if key !in groups {
          order, groups := order + [key], groups[key := []];
        }
        groups := groups[key := groups[key] + [listing[n]]];
        assert groups == next;
      }
      TabledAll(rules, listing, order, groups);
    }

    /** The duplicates of one group, one after the other. */
    method MergeDuplicates(survivor: string, duplicates: seq<Job>) returns (linked: nat)
      modifies this
      ensures State() == MergeAll(old(State()), survivor, duplicates)
      ensures linked == Links(old(State()), survivor, duplicates)
    {
      linked := 0;
      for k := 0 to |duplicates|
        invariant State() == MergeAll(old(State()), survivor, duplicates[..k])
        invariant linked == Links(old(State()), survivor, duplicates[..k])
      {
        assert duplicates[..k + 1][..k] == duplicates[..k];
        var d := duplicates[k].id;
        if d in jobs {
          linked := linked + |Referring(applications, d)|;
          applications := Repointed(applications, d, survivor);
          if survivor !in analyses && d in analyses {
            analyses := (analyses - {d})[survivor := analyses[d]];
          } else {
            analyses := analyses - {d};
          }
          jobs := jobs - {d};
        }
      }
      assert duplicates[..|duplicates|] == duplicates;
    }

    /** The migration.  The listing is what was read before the transaction: if it still is the
        job table, the links reported are the applications that changed. */
    method Migrate(rules: Rules, listing: seq<Job>, apply: bool) returns (r: Option<Summary>)
      requires DistinctIds(listing)
      modifies this
      ensures r == None <==> exists i :: 0 <= i < |listing| && !rules.identifiable(listing[i])
      ensures r == None || !apply ==> State() == old(State())
      ensures r.Some? && apply ==> State() == After(rules, Referenced(old(applications)), old(State()), listing)
      ensures r.Some? ==> && r.value.jobs == |listing| && r.value.identityGroups == |Keys(rules, listing)|
                          && r.value.toMerge == |listing| - |Keys(rules, listing)|
                          && r.value.duplicateGroups == Several(Groups(rules, Referenced(old(applications)), listing))
      ensures r.Some? && Lists(old(State()), listing) ==>
                r.value.repointed == |Changed(old(applications), applications)|
    {
      hide Referenced, Groups, Keys, Members, Sorted, Several, ToMerge, DistinctIds, Lists, After, Changed;
      r := None;
      for n := 0 to |listing|
        invariant forall k | 0 <= k < n :: rules.identifiable(listing[k])
      {
        if !rules.identifiable(listing[n]) { return; }
      }
      var referenced := Referenced(applications);
      var order, groups := GroupJobs(rules, listing);
      GroupsSize(rules, referenced, listing);
      var several, merging := Count(rules, referenced, listing, order, groups);
      DuplicatesCounted(rules, referenced, listing);
      if !apply {
        NothingChanged(applications);
        return Some(Summary(|listing|, |order|, several, merging, 0, false));
      }
      var repointed := MergeEvery(rules, referenced, listing, order, groups);
      if Lists(old(State()), listing) {
        ReportedLinks(rules, referenced, old(State()), listing);
      }
      r := Some(Summary(|listing|, |order|, several, merging, repointed, true));
    }

    /** The transaction: every group in turn. */
    method MergeEvery(rules: Rules, referenced: set<string>, listing: seq<Job>, order: seq<string>,
                      groups: map<string, seq<Job>>)
      returns (repointed: nat)
      requires order == Keys(rules, listing)
      requires forall k | k in order :: k in groups && groups[k] == Members(rules, listing, k)
      modifies this
      ensures State() == After(rules, referenced, old(State()), listing)
      ensures repointed == TotalLinks(rules, old(State()), Groups(rules, referenced, listing))
    {
      hide Groups, Keys, Members, Sorted, MergeGroup, Links, After;
      ghost var gs := Groups(rules, referenced, listing);
      GroupsSize(rules, referenced, listing);
      repointed := 0;
      for i := 0 to |order|
        invariant State() == MergeGroups(rules, old(State()), gs[..i])
        invariant repointed == TotalLinks(rules, old(State()), gs[..i])
      {
        assert gs[..i + 1][..i] == gs[..i];
        GroupIs(rules, referenced, listing, i);
        var linked := MergeInto(rules, Sorted(referenced, groups[order[i]]));
        repointed := repointed + linked;
      }
      assert gs[..|order|] == gs;
      AfterIs(rules, referenced, old(State()), listing);
    }

    /** The two counts over the groups. */
    static method Count(rules: Rules, referenced: set<string>, listing: seq<Job>, order: seq<string>,
                        groups: map<string, seq<Job>>)
      returns (several: nat, merging: nat)
      requires order == Keys(rules, listing) && forall k | k in order ::
                 k in groups && groups[k] == Members(rules, listing, k)
      ensures several == Several(Groups(rules, referenced, listing))
              && merging == ToMerge(Groups(rules, referenced, listing))
    {
      hide Keys, Members, Sorted;
      several, merging := 0, 0;
      ghost var gs := Groups(rules, referenced, listing);
      for i := 0 to |order|
        invariant several == Several(gs[..i]) && merging == ToMerge(gs[..i])
      {
        assert gs[..i + 1][..i] == gs[..i];
        assert order[i] in order;
        var items := groups[order[i]];
        assert |gs[i]| == |items|;
        if |items| > 1 {
          several, merging := several + 1, merging + |items| - 1;
        }
      }
      assert gs[..|order|] == gs;
    }

    /** One group inside the transaction. */
    method MergeInto(rules: Rules, ordered: seq<Job>) returns (linked: nat)
      modifies this
      ensures State() == MergeGroup(rules, old(State()), ordered)
      ensures linked == if ordered == [] || ordered[0].id !in old(jobs) then 0
              else Links(old(State()), ordered[0].id, ordered[1..])
    {
      hide MergeAll, Links;
      linked := 0;
      if ordered != [] && ordered[0].id in jobs {
        var canonical := ordered[0];
        linked := MergeDuplicates(canonical.id, ordered[1..]);
        if canonical.id in jobs {
          jobs := jobs[canonical.id := Annotated(rules, jobs[canonical.id], canonical)];
        }
      }
    }
  }

  /** The applications whose reference is no longer what it was. */
  function Changed(before: map<string, string>, after: map<string, string>): set<string> {
    set a | a in before && (a !in after || after[a] != before[a])
  }

  lemma NothingChanged(applications: map<string, string>)
    ensures Changed(applications, applications) == {}
  {
  }

  lemma GroupIs(rules: Rules, referenced: set<string>, listing: seq<Job>, i: nat)
    requires i < |Keys(rules, listing)|
    ensures |Groups(rules, referenced, listing)| == |Keys(rules, listing)|
            && Keys(rules, listing)[i] in Keys(rules, listing)
    ensures Groups(rules, referenced, listing)[i]
            == Sorted(referenced, Members(rules, listing, Keys(rules, listing)[i]))
  {
  }

  lemma AfterIs(rules: Rules, referenced: set<string>, t: Tables, listing: seq<Job>)
    ensures After(rules, referenced, t, listing) == MergeGroups(rules, t, Groups(rules, referenced, listing))
  {
  }

  lemma ReportedLinks(rules: Rules, referenced: set<string>, t: Tables, listing: seq<Job>)
    requires Lists(t, listing)
    ensures TotalLinks(rules, t, Groups(rules, referenced, listing))
            == |Changed(t.applications, After(rules, referenced, t, listing).applications)|
  {
    hide Groups, MergeGroups, Stored, Apart, JobsMerged, AnalysesMerged, JobsAnnotated, TotalLinks;
    GroupsApart(rules, referenced, listing);
    GroupsStored(rules, referenced, t, listing);
    var r, gs := After(rules, referenced, t, listing), Groups(rules, referenced, listing);
    TotalLinksCount(rules, t, gs);
    ResultMerged(rules, referenced, t, listing);
    assert Moved(t.applications, gs) == Changed(t.applications, r.applications);
  }
}
