/** The greedy choice of sample companies for three industry buckets.

    `order` is the history of picks; buckets, used keys and covered tags are read off it.
    Company keys are integers ordered as the texts they stand for. */
module CompanySelection {

  const GROUPS: nat := 3
  const TARGET: nat := 10
  const MAX_COMPANIES: nat := 30

  datatype Company = Company(key: int, eligible: set<nat>, tags: set<string>, records: nat)

  datatype Pick = Pick(group: nat, company: Company)

  /** A sort key, compared component by component. */
  datatype Rank = Rank(first: int, second: int, third: int, last: int)

  predicate Less(a: Rank, b: Rank) {
    if a.first != b.first then a.first < b.first
    else if a.second != b.second then a.second < b.second
    else if a.third != b.third then a.third < b.third
    else a.last < b.last
  }

  function Used(order: seq<Pick>): set<int> {
    set p | p in order :: p.company.key
  }

  function Covered(order: seq<Pick>): set<string> {
    set p, t | p in order && t in p.company.tags :: t
  }

  function Bucket(order: seq<Pick>, group: nat): seq<Company> {
    if order == [] then []
    else
      var last := order[|order| - 1];
      Bucket(order[..|order| - 1], group) + if last.group == group then [last.company] else []
  }

  /** The unused companies eligible for a group, in input order. */
  function Available(companies: seq<Company>, used: set<int>, group: nat): (a: seq<Company>)
    ensures forall c :: c in a <==> c in companies && c.key !in used && group in c.eligible
  {
    if companies == [] then []
    else
      var last := companies[|companies| - 1];
      assert companies == companies[..|companies| - 1] + [last];
      Available(companies[..|companies| - 1], used, group)
      + if last.key !in used && group in last.eligible then [last] else []
  }

  /** A group that is not full and still has somebody to take. */
  predicate Open(companies: seq<Company>, order: seq<Pick>, group: nat) {
    group < GROUPS && |Bucket(order, group)| < TARGET && Available(companies, Used(order), group) != []
  }

  /** Least filled first, then scarcest, then in group order. */
  function GroupRank(companies: seq<Company>, order: seq<Pick>, group: nat): Rank {
    Rank(|Bucket(order, group)|, |Available(companies, Used(order), group)|, group, 0)
  }

  /** Most new tags, then single-group companies, then most records, then by key. */
  function CompanyRank(c: Company, covered: set<string>): Rank {
    Rank(-(|c.tags - covered| as int), if |c.eligible| == 1 then -1 else 0, -(c.records as int), c.key)
  }

  /** A pick of the greedy rule. */
  ghost predicate Picked(companies: seq<Company>, order: seq<Pick>, p: Pick) {
    && Open(companies, order, p.group)
    && (forall g | 0 <= g < GROUPS && Open(companies, order, g) ::
          !Less(GroupRank(companies, order, g), GroupRank(companies, order, p.group)))
    && p.company in Available(companies, Used(order), p.group)
    && (forall c | c in Available(companies, Used(order), p.group) ::
          !Less(CompanyRank(c, Covered(order)), CompanyRank(p.company, Covered(order))))
  }

  ghost predicate GreedyRun(companies: seq<Company>, order: seq<Pick>) {
    forall i | 0 <= i < |order| :: Picked(companies, order[..i], order[i])
  }

  ghost predicate Finished(companies: seq<Company>, order: seq<Pick>) {
    forall g | 0 <= g < GROUPS :: !Open(companies, order, g)
  }

  // ----- the loop -----

  /** Between two open groups the emptier comes first, then the one with fewer companies left,
      then the lower number. */
  lemma GroupRankExactly(companies: seq<Company>, order: seq<Pick>, g: nat, h: nat)
    ensures Less(GroupRank(companies, order, g), GroupRank(companies, order, h)) <==>
              var fill, filled := |Bucket(order, g)|, |Bucket(order, h)|;
              var left, there := |Available(companies, Used(order), g)|, |Available(companies, Used(order), h)|;
              fill < filled || (fill == filled && (left < there || (left == there && g < h)))
  {
    hide Bucket, Available, Used;
  }

  /** Between two companies the one with more new tags comes first, then one of a single group,
      then the one with more records, then the lower key. */
  lemma CompanyRankExactly(c: Company, d: Company, covered: set<string>)
    ensures Less(CompanyRank(c, covered), CompanyRank(d, covered)) <==>
              var gain, other := |c.tags - covered|, |d.tags - covered|;
              if gain != other then gain > other
              else if (|c.eligible| == 1) != (|d.eligible| == 1) then |c.eligible| == 1
              else c.records > d.records || (c.records == d.records && c.key < d.key)
  {
  }

  method LeastGroup(companies: seq<Company>, order: seq<Pick>) returns (best: int)
    ensures best < 0 ==> Finished(companies, order)
    ensures best >= 0 ==>
              && Open(companies, order, best)
              && forall g | 0 <= g < GROUPS && Open(companies, order, g) ::
                   !Less(GroupRank(companies, order, g), GroupRank(companies, order, best))
  {
    hide Bucket, Available, Used;
    best := -1;
    for g := 0 to GROUPS
      invariant best < 0 ==> forall h | 0 <= h < g :: !Open(companies, order, h)
      invariant best >= 0 ==>
                  && Open(companies, order, best)
                  && forall h | 0 <= h < g && Open(companies, order, h) ::
                       !Less(GroupRank(companies, order, h), GroupRank(companies, order, best))
    {
      if Open(companies, order, g) {
        if best < 0 || Less(GroupRank(companies, order, g), GroupRank(companies, order, best)) { best := g; }
      }
    }
  }

  method BestCompany(available: seq<Company>, covered: set<string>) returns (best: Company)
    requires available != []
    ensures best in available
    ensures forall c | c in available :: !Less(CompanyRank(c, covered), CompanyRank(best, covered))
  {
    hide CompanyRank;
    best := available[0];
    for i := 1 to |available|
      invariant best in available
      invariant forall c | c in available[..i] :: !Less(CompanyRank(c, covered), CompanyRank(best, covered))
    {
      assert available[..i + 1] == available[..i] + [available[i]];
      if Less(CompanyRank(available[i], covered), CompanyRank(best, covered)) { best := available[i]; }
    }
    assert available[..|available|] == available;
  }

  predicate SortedByKey(s: seq<Company>) {
    forall i, j | 0 <= i < j < |s| :: s[i].key <= s[j].key
  }

  /** How many companies at the front have a key no larger. */
  function Position(s: seq<Company>, key: int): (k: nat)
    ensures k <= |s|
    ensures forall i | 0 <= i < k :: s[i].key <= key
    ensures k < |s| ==> key < s[k].key
  {
    if s == [] || key < s[0].key then 0 else 1 + Position(s[1..], key)
  }

  function Inserted(s: seq<Company>, c: Company): seq<Company> {
    var k := Position(s, c.key);
    s[..k] + [c] + s[k..]
  }

  function ByKey(s: seq<Company>): seq<Company> {
    if s == [] then [] else Inserted(ByKey(s[..|s| - 1]), s[|s| - 1])
  }

  lemma InsertedSorted(s: seq<Company>, c: Company)
    requires SortedByKey(s)
    ensures SortedByKey(Inserted(s, c))
  {
  }

  lemma InsertedKeepsAll(s: seq<Company>, c: Company)
    ensures multiset(Inserted(s, c)) == multiset(s) + multiset{c}
  {
    var k := Position(s, c.key);
    assert s == s[..k] + s[k..];
  }

  lemma {:induction false} ByKeySorts(s: seq<Company>)
    ensures SortedByKey(ByKey(s)) && multiset(ByKey(s)) == multiset(s)
  {
    hide Inserted;
    if s != [] {
      var n := |s| - 1;
      ByKeySorts(s[..n]);
      InsertedSorted(ByKey(s[..n]), s[n]);
      InsertedKeepsAll(ByKey(s[..n]), s[n]);
      assert s == s[..n] + [s[n]];
    }
  }

  /** The selection loop: greedy picks until no group is open, then each bucket by key. */
  method SelectCompanies(companies: seq<Company>) returns (selected: seq<seq<Company>>, used: set<int>,
                                                           order: seq<Pick>)
    ensures GreedyRun(companies, order) && Finished(companies, order)
    ensures used == Used(order) && |selected| == GROUPS
    ensures forall g | 0 <= g < GROUPS ::
              SortedByKey(selected[g]) && multiset(selected[g]) == multiset(Bucket(order, g))
  {
    hide Less, GroupRank, CompanyRank, Covered, Used, Bucket, Available, ByKey, SortedByKey;
    order, used := [], {};
    var buckets: seq<seq<Company>> := [[], [], []];
    var covered: set<string> := {};
    NothingPicked();
    while |used| < MAX_COMPANIES
      invariant GreedyRun(companies, order)
      invariant used == Used(order) && |used| == |order| && covered == Covered(order)
      invariant |buckets| == GROUPS && forall g | 0 <= g < GROUPS :: buckets[g] == Bucket(order, g)
      decreases MAX_COMPANIES - |used|
    {
      var group := LeastGroup(companies, order);
      if group < 0 { break; }
      var company := BestCompany(Available(companies, used, group), covered);
      var p := Pick(group, company);
      PickGrows(order, p);
      assert forall i | 0 <= i < |order| :: (order + [p])[..i] == order[..i];
      assert (order + [p])[..|order|] == order;
      order, used, covered := order + [p], used + {company.key}, covered + company.tags;
      buckets := buckets[group := buckets[group] + [company]];
    }
    if |used| >= MAX_COMPANIES { FullIsFinished(companies, order); }
    forall g | 0 <= g < GROUPS { ByKeySorts(buckets[g]); }
    selected := seq(GROUPS, g requires 0 <= g < GROUPS && |buckets| == GROUPS => ByKey(buckets[g]));
  }

  lemma NothingPicked()
    ensures Used([]) == {} && Covered([]) == {} && forall g :: Bucket([], g) == []
  {
  }

  lemma PickGrows(order: seq<Pick>, p: Pick)
    ensures Used(order + [p]) == Used(order) + {p.company.key}
    ensures Covered(order + [p]) == Covered(order) + p.company.tags
    ensures forall g :: Bucket(order + [p], g) == Bucket(order, g) + if p.group == g then [p.company] else []
  {
    assert (order + [p])[..|order|] == order;
    assert forall x :: x in order + [p] <==> x in order || x == p;
  }

  /** The three buckets share out the picks. */
  lemma {:induction false} BucketsShare(companies: seq<Company>, order: seq<Pick>)
    requires GreedyRun(companies, order)
    ensures |Bucket(order, 0)| + |Bucket(order, 1)| + |Bucket(order, 2)| == |order|
    ensures |Used(order)| == |order|
    ensures forall g | 0 <= g < GROUPS :: |Bucket(order, g)| <= TARGET
  {
    hide Less, GroupRank, CompanyRank, Covered, Available, Bucket, Used;
    if order != [] {
      var n := |order| - 1;
      assert forall i | 0 <= i < n :: order[..n][..i] == order[..i] && order[..n][i] == order[i];
      BucketsShare(companies, order[..n]);
      assert Picked(companies, order[..n], order[n]);
      PickGrows(order[..n], order[n]);
      assert order == order[..n] + [order[n]];
    } else {
      NothingPicked();
    }
  }

  lemma FullIsFinished(companies: seq<Company>, order: seq<Pick>)
    requires GreedyRun(companies, order) && |order| >= MAX_COMPANIES
    ensures Finished(companies, order)
  {
    hide Less, GroupRank, CompanyRank, Covered, Available, Bucket, Picked;
    BucketsShare(companies, order);
  }

  // ----- what the selection guarantees -----

  /** Buckets are disjoint, within capacity and eligible. */
  lemma {:induction false} SelectionIsFeasible(companies: seq<Company>, order: seq<Pick>)
    requires GreedyRun(companies, order)
    ensures forall g | 0 <= g < 3 :: |Bucket(order, g)| <= 10
    ensures forall i | 0 <= i < |order| ::
              order[i].company in companies && order[i].group < 3 && order[i].group in order[i].company.eligible
    ensures forall i, j | 0 <= i < j < |order| :: order[i].company.key != order[j].company.key
  {
    BucketsShare(companies, order);
    forall i | 0 <= i < |order|
      ensures order[i].company in companies && order[i].group < GROUPS && order[i].group in order[i].company.eligible
      ensures order[i].company.key !in Used(order[..i])
    {
      assert Picked(companies, order[..i], order[i]);
    }
    forall i, j | 0 <= i < j < |order| ensures order[i].company.key != order[j].company.key {
      assert order[i] in order[..j];
    }
  }

  /** On exit no unused company fits any bucket that is not full. */
  lemma SelectionIsMaximal(companies: seq<Company>, order: seq<Pick>, g: nat, c: Company)
    requires Finished(companies, order) && g < GROUPS
    requires c in companies && g in c.eligible && c.key !in Used(order)
    ensures |Bucket(order, g)| >= TARGET
  {
    assert !Open(companies, order, g);
    assert c in Available(companies, Used(order), g);
  }

  /** Company keys assigned to a group. */
  ghost function Share(assignment: map<int, nat>, g: nat): set<int> {
    set k | k in assignment && assignment[k] == g
  }

  /** Any assignment of companies to eligible buckets within capacity. */
  ghost predicate Feasible(companies: seq<Company>, assignment: map<int, nat>) {
    && (forall k | k in assignment ::
          assignment[k] < GROUPS && exists c :: c in companies && c.key == k && assignment[k] in c.eligible)
    && forall g | 0 <= g < GROUPS :: |Share(assignment, g)| <= TARGET
  }

  lemma SmallerSet(a: set<int>, b: set<int>)
    requires a <= b
    ensures |a| <= |b|
  {
    assert b == a + (b - a);
  }

  /** The unused keys an assignment gives to a group are no more than the group's picks. */
  lemma UnusedShare(companies: seq<Company>, order: seq<Pick>, assignment: map<int, nat>, g: nat)
    requires Finished(companies, order) && Feasible(companies, assignment) && g < GROUPS
    ensures |Share(assignment, g) - Used(order)| <= |Bucket(order, g)|
  {
    var share, used := Share(assignment, g), Used(order);
    if |Bucket(order, g)| >= TARGET {
      SmallerSet(share - used, share);
    } else {
      forall k | k in share ensures k in used {
        var c :| c in companies && c.key == k && assignment[k] in c.eligible;
        if k !in used { SelectionIsMaximal(companies, order, g, c); }
      }
      assert share - used == {};
    }
  }

  /** Assigned keys are used ones or lie in one of the three shares. */
  lemma SharesCover(assignment: map<int, nat>, used: set<int>)
    requires forall k | k in assignment :: assignment[k] < GROUPS
    ensures |assignment| <= |Share(assignment, 0) - used| + |Share(assignment, 1) - used|
                            + |Share(assignment, 2) - used| + |used|
  {
    var a, b, c := Share(assignment, 0) - used, Share(assignment, 1) - used, Share(assignment, 2) - used;
    forall k | k in assignment ensures k in a + b + c + used {
      assert k in Share(assignment, assignment[k]);
    }
    SmallerSet(assignment.Keys, a + b + c + used);
  }

  /** The greedy selection holds at least half as many companies as any feasible assignment. */
  lemma AtLeastHalf(companies: seq<Company>, order: seq<Pick>, assignment: map<int, nat>)
    requires GreedyRun(companies, order) && Finished(companies, order)
    requires Feasible(companies, assignment)
    ensures |assignment| <= 2 * |order|
  {
    hide Less, GroupRank, CompanyRank, Covered, Available, Bucket, Picked, Used, Finished, GreedyRun, Share;
    BucketsShare(companies, order);
    UnusedShare(companies, order, assignment, 0);
    UnusedShare(companies, order, assignment, 1);
    UnusedShare(companies, order, assignment, 2);
    SharesCover(assignment, Used(order));
  }

  /** Whenever a bucket is filled past another one, nobody eligible for the other is left:
      so a bucket that ends two or more behind had run out before the last pick of the one
      ahead. */
  lemma NeverAheadOfAnOpenGroup(companies: seq<Company>, order: seq<Pick>, i: nat, g: nat)
    requires GreedyRun(companies, order) && i < |order| && g < GROUPS
    requires |Bucket(order[..i], g)| < |Bucket(order[..i], order[i].group)|
    ensures forall c | c in companies && g in c.eligible :: c.key in Used(order[..i])
  {
    var before := order[..i];
    assert Picked(companies, before, order[i]);
    forall c | c in companies && g in c.eligible ensures c.key in Used(before) {
      if c.key !in Used(before) {
        assert c in Available(companies, Used(before), g);
        assert Open(companies, before, g);
      }
    }
  }

  lemma {:induction false} BucketGrows(order: seq<Pick>, i: nat, g: nat)
    requires i <= |order|
    ensures |Bucket(order[..i], g)| <= |Bucket(order, g)|
  {
    if i == |order| {
      assert order[..i] == order;
    } else {
      assert order[..|order| - 1][..i] == order[..i];
      BucketGrows(order[..|order| - 1], i, g);
    }
  }

  /** A bucket's last pick. */
  lemma {:induction false} LastPick(order: seq<Pick>, h: nat) returns (i: nat)
    requires Bucket(order, h) != []
    ensures i < |order| && order[i].group == h && |Bucket(order[..i], h)| == |Bucket(order, h)| - 1
  {
    var n := |order| - 1;
    if order[n].group == h {
      i := n;
    } else {
      i := LastPick(order[..n], h);
      assert order[..n][..i] == order[..i];
    }
  }

  /** A bucket trailing another by two or more had no unused eligible company left when the
      other received its last one. */
  lemma TrailingBucketWasExhausted(companies: seq<Company>, order: seq<Pick>, g: nat, h: nat) returns (i: nat)
    requires GreedyRun(companies, order) && g < GROUPS && h < GROUPS
    requires |Bucket(order, g)| + 2 <= |Bucket(order, h)|
    ensures i < |order| && order[i].group == h
    ensures forall c | c in companies && g in c.eligible :: c.key in Used(order[..i])
  {
    hide Less, GroupRank, CompanyRank, Covered, Available, Bucket, Picked, Used;
    i := LastPick(order, h);
    BucketGrows(order, i, g);
    NeverAheadOfAnOpenGroup(companies, order, i, g);
  }
}
