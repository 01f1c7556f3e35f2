/** The ledger of a join and its settlement (packages/workflow-engine/src/join-settlement.ts). */
module Joins {
  import opened Wrappers
  import opened CodeUnits

  datatype Disposition = Pending | Arrived | Skipped | Missing | Failed | Canceled

  datatype OutputReference =
    | Inline(attemptId: Text)
    | Artifact(artifactId: Text)
    | Reused(nodeRunId: Text)
    | Call(callId: Text)
    | HumanTask(taskId: Text)

  /** One ledger entry, and one update. Equal references have equal kinds and equal ids, which is
      what sameOutputReference compares. */
  datatype Branch = Branch(id: Text, disposition: Disposition, output: Option<OutputReference>)

  type Ledger = seq<Branch>

  datatype Policy = All | Any | Count(count: int)

  datatype Reason = BranchFailed | BranchCanceled | InsufficientArrivals

  datatype Decision =
    | Invalid
    | Waiting
    | Satisfied(selected: seq<Text>, ledger: Ledger)
    | Unsatisfied(reason: Reason, ledger: Ledger)

  datatype Recording = Recorded(ledger: Ledger) | Undeclared | AlreadyTerminal

  // ----- Code-unit order -----

  /** The string order of the language. */
  predicate Less(a: Text, b: Text) {
    b != [] && (a == [] || a[0] < b[0] || (a[0] == b[0] && Less(a[1..], b[1..])))
  }

  lemma {:induction false} LessIsTotal(a: Text, b: Text)
    ensures a == b || Less(a, b) || Less(b, a)
    decreases |a|
  {
    if a != [] && b != [] && a[0] == b[0] {
      LessIsTotal(a[1..], b[1..]);
      assert a == [a[0]] + a[1..] && b == [b[0]] + b[1..];
    }
  }

  lemma {:induction false} LessIsStrict(a: Text, b: Text)
    requires Less(a, b)
    ensures a != b && !Less(b, a)
    decreases |a|
  {
    if a != [] && a[0] == b[0] {
      LessIsStrict(a[1..], b[1..]);
    }
  }

  lemma {:induction false} LessIsTransitive(a: Text, b: Text, c: Text)
    requires Less(a, b) && Less(b, c)
    ensures Less(a, c)
    decreases |a|
  {
    if a != [] && a[0] == b[0] && b[0] == c[0] {
      LessIsTransitive(a[1..], b[1..], c[1..]);
    }
  }

  /** a is a proper prefix of b, or smaller at the first place where they differ. */
  ghost predicate Precedes(a: Text, b: Text, n: nat) {
    n <= |a| && n < |b| && a[..n] == b[..n] && (n == |a| || a[n] < b[n])
  }

  lemma FirstAlike(a: Text, b: Text, n: nat)
    requires Precedes(a, b, n) && n > 0
    ensures a != [] && b != [] && a[0] == b[0]
  {
    assert a[..n][0] == b[..n][0];
  }

  lemma {:induction false} LessIsLexicographic(a: Text, b: Text)
    ensures Less(a, b) <==> exists n :: Precedes(a, b, n)
    decreases |a|
  {
    if a != [] && b != [] && a[0] == b[0] {
      LessIsLexicographic(a[1..], b[1..]);
      assert a == [a[0]] + a[1..] && b == [b[0]] + b[1..];
      if n: nat :| Precedes(a[1..], b[1..], n) {
        assert a[..n + 1] == [a[0]] + a[1..][..n] && b[..n + 1] == [b[0]] + b[1..][..n];
        assert Precedes(a, b, n + 1);
      }
      if n: nat :| Precedes(a, b, n) {
        assert n > 0;
        assert a[1..][..n - 1] == a[..n][1..] && b[1..][..n - 1] == b[..n][1..];
        assert Precedes(a[1..], b[1..], n - 1);
      }
    } else {
      if n: nat :| Precedes(a, b, n) {
        if n > 0 {
          FirstAlike(a, b, n);
        }
      }
      if Less(a, b) {
        assert Precedes(a, b, 0);
      }
    }
  }

  // ----- Sorting a ledger -----

  /** A stable sort by branch id. */
  function Sort(l: Ledger): Ledger { if l == [] then [] else Insert(l[0], Sort(l[1..])) }

  function Insert(b: Branch, l: Ledger): Ledger {
    if l == [] || !Less(l[0].id, b.id) then [b] + l else [l[0]] + Insert(b, l[1..])
  }

  predicate Unique(l: Ledger) { forall i, j :: 0 <= i < j < |l| ==> l[i].id != l[j].id }

  predicate Ascending(l: Ledger) { forall i, j :: 0 <= i < j < |l| ==> Less(l[i].id, l[j].id) }

  lemma AscendingIsUnique(l: Ledger)
    requires Ascending(l)
    ensures Unique(l)
  {
    forall i, j | 0 <= i < j < |l|
      ensures l[i].id != l[j].id
    {
      LessIsStrict(l[i].id, l[j].id);
    }
  }

  lemma {:induction false} InsertKeeps(b: Branch, l: Ledger)
    ensures multiset(Insert(b, l)) == multiset(l) + multiset{b}
  {
    if l != [] && Less(l[0].id, b.id) {
      InsertKeeps(b, l[1..]);
      assert l == [l[0]] + l[1..];
    }
  }

  lemma {:induction false} InsertAscends(b: Branch, l: Ledger)
    requires Ascending(l) && forall c :: c in l ==> c.id != b.id
    ensures Ascending(Insert(b, l))
  {
    hide Less;
    if l != [] && Less(l[0].id, b.id) {
      InsertAscends(b, l[1..]);
      InsertKeeps(b, l[1..]);
      var rest := Insert(b, l[1..]);
      forall j | 0 <= j < |rest|
        ensures Less(l[0].id, rest[j].id)
      {
        assert rest[j] in multiset(rest);
        if rest[j] in multiset(l[1..]) {
          var k :| 0 <= k < |l[1..]| && l[1..][k] == rest[j];
          assert l[k + 1] == rest[j];
        }
      }
    } else if l != [] {
      LessIsTotal(b.id, l[0].id);
      forall j | 0 <= j < |l|
        ensures Less(b.id, l[j].id)
      {
        if j > 0 {
          LessIsTransitive(b.id, l[0].id, l[j].id);
        }
      }
    }
  }

  lemma {:induction false} SortPermutes(l: Ledger)
    ensures multiset(Sort(l)) == multiset(l)
  {
    if l != [] {
      SortPermutes(l[1..]);
      InsertKeeps(l[0], Sort(l[1..]));
      assert l == [l[0]] + l[1..];
    }
  }

  lemma SameMultiset(l: Ledger, m: Ledger)
    requires multiset(l) == multiset(m)
    ensures |l| == |m|
    ensures forall b :: b in l <==> b in m
  {
    assert |multiset(l)| == |multiset(m)|;
    forall b
      ensures b in l <==> b in m
    {
      assert b in l <==> b in multiset(l);
      assert b in m <==> b in multiset(m);
    }
  }

  lemma SortKeeps(l: Ledger)
    ensures multiset(Sort(l)) == multiset(l)
    ensures |Sort(l)| == |l|
    ensures forall b :: b in Sort(l) <==> b in l
  {
    hide Sort;
    SortPermutes(l);
    SameMultiset(Sort(l), l);
  }

  lemma {:induction false} SortAscends(l: Ledger)
    requires Unique(l)
    ensures Ascending(Sort(l))
  {
    if l != [] {
      SortAscends(l[1..]);
      SortKeeps(l[1..]);
      forall c | c in l[1..]
        ensures c.id != l[0].id
      {
        var k :| 0 <= k < |l[1..]| && l[1..][k] == c;
        assert l[k + 1] == c;
      }
      InsertAscends(l[0], Sort(l[1..]));
    }
  }

  /** An ascending ledger is determined by its entries. */
  lemma {:induction false} AscendingIsCanonical(l: Ledger, m: Ledger)
    requires Ascending(l) && Ascending(m)
    requires forall b :: b in l <==> b in m
    ensures l == m
    decreases |l|
  {
    EmptyAlike(l, m);
    if l != [] {
      SameHead(l, m);
      forall b
        ensures b in l[1..] <==> b in m[1..]
      {
        InTail(l, b);
        InTail(m, b);
      }
      AscendingIsCanonical(l[1..], m[1..]);
      assert l == [l[0]] + l[1..] && m == [m[0]] + m[1..];
    }
  }

  lemma EmptyAlike(l: Ledger, m: Ledger)
    requires forall b :: b in l <==> b in m
    ensures l == [] <==> m == []
  {
    if l != [] {
      assert l[0] in m;
    }
    if m != [] {
      assert m[0] in l;
    }
  }

  lemma SameHead(l: Ledger, m: Ledger)
    requires Ascending(l) && Ascending(m) && l != [] && m != []
    requires forall b :: b in l <==> b in m
    ensures l[0] == m[0]
  {
    assert l[0] in m && m[0] in l;
    var i :| 0 <= i < |m| && m[i] == l[0];
    var j :| 0 <= j < |l| && l[j] == m[0];
    if i > 0 && j > 0 {
      LessIsStrict(m[0].id, m[i].id);
    }
  }

  lemma InTail(l: Ledger, b: Branch)
    requires Ascending(l) && l != []
    ensures b in l[1..] <==> b in l && b != l[0]
  {
    if b in l[1..] {
      var k :| 0 <= k < |l[1..]| && l[1..][k] == b;
      assert l[k + 1] == b;
      LessIsStrict(l[0].id, l[k + 1].id);
    }
    assert l == [l[0]] + l[1..];
  }

  // ----- Settling -----

  predicate Has(l: Ledger, d: Disposition) { exists i :: 0 <= i < |l| && l[i].disposition == d }

  function ArrivedIn(l: Ledger): seq<Text> {
    if l == [] then [] else (if l[0].disposition == Arrived then [l[0].id] else []) + ArrivedIn(l[1..])
  }

  /** requiredArrivals, None where it throws. */
  function Required(policy: Policy, declared: nat): Option<nat> {
    match policy
    case All => Some(0)
    case Any => Some(1)
    case Count(n) => if n <= 0 || n > declared then None else Some(n)
  }

  function SettleJoin(policy: Policy, declared: Ledger): Decision {
    var ledger := Sort(declared);
    if !Unique(ledger) || ledger == [] then Invalid
    else if Has(ledger, Pending) then Waiting
    else
      var arrived := ArrivedIn(ledger);
      match Required(policy, |ledger|)
      case None => Invalid
      case Some(required) =>
        if policy == All && Has(ledger, Failed) then Unsatisfied(BranchFailed, ledger)
        else if policy == All && Has(ledger, Canceled) then Unsatisfied(BranchCanceled, ledger)
        else if |arrived| < required then Unsatisfied(InsufficientArrivals, ledger)
        else Satisfied(if policy == All then arrived else arrived[..required], ledger)
  }

  lemma HasSurvivesSort(l: Ledger, d: Disposition)
    ensures Has(Sort(l), d) <==> Has(l, d)
  {
    SortKeeps(l);
    if Has(l, d) {
      var i :| 0 <= i < |l| && l[i].disposition == d;
      assert l[i] in Sort(l);
    }
    if Has(Sort(l), d) {
      var i :| 0 <= i < |Sort(l)| && Sort(l)[i].disposition == d;
      assert Sort(l)[i] in l;
    }
  }

  lemma UniqueSurvivesSort(l: Ledger)
    ensures Unique(Sort(l)) <==> Unique(l)
  {
    if Unique(l) {
      SortAscends(l);
      AscendingIsUnique(Sort(l));
    } else {
      var i, j :| 0 <= i < j < |l| && l[i].id == l[j].id;
      SortKeeps(l);
      DuplicateSurvives(l, Sort(l), i, j);
    }
  }

  lemma DuplicateSurvives(l: Ledger, m: Ledger, i: nat, j: nat)
    requires i < j < |l| && l[i].id == l[j].id
    requires multiset(m) == multiset(l)
    ensures !Unique(m)
  {
    if l[i] == l[j] {
      CountedTwice(l, i, j);
      TwiceIn(m, l[i]);
    } else {
      SameMultiset(l, m);
      assert l[i] in l && l[j] in l;
      var a :| 0 <= a < |m| && m[a] == l[i];
      var b :| 0 <= b < |m| && m[b] == l[j];
      assert a != b;
    }
  }

  lemma CountedTwice(l: Ledger, i: nat, j: nat)
    requires i < j < |l| && l[i] == l[j]
    ensures multiset(l)[l[i]] >= 2
  {
    var a, b := l[..j], l[j..];
    assert l == a + b;
    assert multiset(l) == multiset(a) + multiset(b);
    assert a[i] == l[i] && b[0] == l[i];
    assert l[i] in multiset(a) && l[i] in multiset(b);
  }

  lemma TwiceIn(m: Ledger, b: Branch)
    requires multiset(m)[b] >= 2
    ensures !Unique(m)
  {
    assert b in multiset(m);
    var i :| 0 <= i < |m| && m[i] == b;
    var rest := m[..i] + m[i + 1..];
    assert m == m[..i] + [b] + m[i + 1..];
    assert multiset(m) == multiset(rest) + multiset{b};
    assert b in multiset(rest);
    var k :| 0 <= k < |rest| && rest[k] == b;
    var j := if k < i then k else k + 1;
    assert m[j] == b && j != i;
  }

  /** Waiting exactly while a branch of a valid join is pending. */
  lemma WaitingIffPending(policy: Policy, l: Ledger)
    ensures SettleJoin(policy, l) == Waiting <==> Unique(l) && Has(l, Pending)
  {
    SortKeeps(l);
    UniqueSurvivesSort(l);
    HasSurvivesSort(l, Pending);
  }

  /** Only an empty or ambiguous ledger, or a settled one with an impossible count, is invalid. */
  lemma InvalidIff(policy: Policy, l: Ledger)
    ensures SettleJoin(policy, l) == Invalid <==>
              l == [] || !Unique(l) || (!Has(l, Pending) && policy.Count? && !(1 <= policy.count <= |l|))
  {
    SortKeeps(l);
    UniqueSurvivesSort(l);
    HasSurvivesSort(l, Pending);
  }

  /** The order in which the ledger was stored does not matter. */
  lemma OrderOfLedgerIsIrrelevant(policy: Policy, l: Ledger, m: Ledger)
    requires multiset(l) == multiset(m)
    ensures SettleJoin(policy, l) == SettleJoin(policy, m)
  {
    hide Sort, Unique, Ascending, SettleJoin;
    if Unique(m) {
      UniqueIsPermutable(l, m);
    }
    if Unique(l) {
      UniqueIsPermutable(m, l);
      SortAscends(l);
      SortAscends(m);
      SortKeeps(l);
      SortKeeps(m);
      SameMultiset(l, m);
      AscendingIsCanonical(Sort(l), Sort(m));
      SettlesBySort(policy, l, m);
    } else {
      InvalidIff(policy, l);
      InvalidIff(policy, m);
    }
  }

  lemma SettlesBySort(policy: Policy, l: Ledger, m: Ledger)
    requires Sort(l) == Sort(m)
    ensures SettleJoin(policy, l) == SettleJoin(policy, m)
  {
  }

  lemma UniqueIsPermutable(l: Ledger, m: Ledger)
    requires multiset(l) == multiset(m) && Unique(m)
    ensures Unique(l)
  {
    if !Unique(l) {
      var i, j :| 0 <= i < j < |l| && l[i].id == l[j].id;
      DuplicateSurvives(l, m, i, j);
    }
  }

  // ----- What is selected -----

  ghost predicate HasArrived(l: Ledger, id: Text) {
    exists b :: b in l && b.id == id && b.disposition == Arrived
  }

  predicate IdsAscend(ids: seq<Text>) { forall i, j :: 0 <= i < j < |ids| ==> Less(ids[i], ids[j]) }

  lemma {:induction false} ArrivedMembers(l: Ledger, id: Text)
    ensures id in ArrivedIn(l) <==> HasArrived(l, id)
  {
    if l != [] {
      ArrivedMembers(l[1..], id);
      assert l == [l[0]] + l[1..];
    }
  }

  lemma {:induction false} ArrivedAscend(l: Ledger)
    requires Ascending(l)
    ensures IdsAscend(ArrivedIn(l))
  {
    if l != [] {
      var rest := l[1..];
      ArrivedAscend(rest);
      forall k | 0 <= k < |ArrivedIn(rest)|
        ensures Less(l[0].id, ArrivedIn(rest)[k])
      {
        assert ArrivedIn(rest)[k] in ArrivedIn(rest);
        ArrivedMembers(rest, ArrivedIn(rest)[k]);
        var b :| b in rest && b.id == ArrivedIn(rest)[k] && b.disposition == Arrived;
        var j :| 0 <= j < |rest| && rest[j] == b;
        assert l[j + 1] == b;
      }
    }
  }

  /** `all` succeeds exactly when no branch failed or was canceled, and selects every arrival in order. */
  lemma AllIsExact(l: Ledger)
    requires l != [] && Unique(l) && !Has(l, Pending)
    ensures SettleJoin(All, l).Satisfied? <==> !Has(l, Failed) && !Has(l, Canceled)
    ensures SettleJoin(All, l).Unsatisfied? <==> Has(l, Failed) || Has(l, Canceled)
    ensures Has(l, Failed) ==> SettleJoin(All, l).reason == BranchFailed
    ensures !Has(l, Failed) && Has(l, Canceled) ==> SettleJoin(All, l).reason == BranchCanceled
    ensures SettleJoin(All, l).Satisfied? ==>
              IdsAscend(SettleJoin(All, l).selected)
              && forall id :: id in SettleJoin(All, l).selected <==> HasArrived(l, id)
  {
    hide Ascending, IdsAscend, HasArrived, Has, Unique, Sort, ArrivedIn;
    SettlesSorted(l);
    SameArrivals(l);
    HasSurvivesSort(l, Failed);
    HasSurvivesSort(l, Canceled);
  }

  /** A decision carries the entries it was made on, in ascending order of their ids. */
  lemma DecidedLedger(policy: Policy, l: Ledger)
    ensures var d := SettleJoin(policy, l);
            d.Satisfied? || d.Unsatisfied? ==> Ascending(d.ledger) && multiset(d.ledger) == multiset(l)
  {
    hide Sort, Ascending;
    SortKeeps(l);
    UniqueSurvivesSort(l);
    if Unique(l) {
      SortAscends(l);
    }
  }

  lemma SettlesSorted(l: Ledger)
    requires l != [] && Unique(l) && !Has(l, Pending)
    ensures Unique(Sort(l)) && Sort(l) != [] && !Has(Sort(l), Pending) && |Sort(l)| == |l|
  {
    SortKeeps(l);
    UniqueSurvivesSort(l);
    HasSurvivesSort(l, Pending);
  }

  lemma SameArrivals(l: Ledger)
    requires Unique(l)
    ensures IdsAscend(ArrivedIn(Sort(l)))
    ensures forall id :: id in ArrivedIn(Sort(l)) <==> HasArrived(l, id)
  {
    SortAscends(l);
    ArrivedAscend(Sort(l));
    SortKeeps(l);
    forall id
      ensures id in ArrivedIn(Sort(l)) <==> HasArrived(l, id)
    {
      ArrivedMembers(Sort(l), id);
    }
  }

  /** The ids of the arrived branches: distinct, since the ledger's ids are. */
  ghost function Arrivals(l: Ledger): set<Text> { set b | b in l && b.disposition == Arrived :: b.id }

  ghost function IdSet(ids: seq<Text>): set<Text> { set id | id in ids }

  lemma {:induction false} AscendingIdsAreDistinct(ids: seq<Text>)
    requires IdsAscend(ids)
    ensures |IdSet(ids)| == |ids|
  {
    if ids != [] {
      AscendingIdsAreDistinct(ids[1..]);
      SmallestIsNew(ids);
    }
  }

  lemma SmallestIsNew(ids: seq<Text>)
    requires ids != [] && IdsAscend(ids)
    ensures ids[0] !in IdSet(ids[1..]) && IdSet(ids) == {ids[0]} + IdSet(ids[1..])
  {
    var rest := ids[1..];
    assert ids == [ids[0]] + rest;
    if ids[0] in rest {
      var k :| 0 <= k < |rest| && rest[k] == ids[0];
      LessIsStrict(ids[0], ids[k + 1]);
    }
  }

  lemma ArrivalsAreCounted(l: Ledger)
    requires Unique(l)
    ensures |ArrivedIn(Sort(l))| == |Arrivals(l)|
  {
    SameArrivals(l);
    AscendingIdsAreDistinct(ArrivedIn(Sort(l)));
    assert IdSet(ArrivedIn(Sort(l))) == Arrivals(l);
  }

  /** Of the arrived branches, exactly the `required` ones that come first in code-unit order. */
  ghost predicate FirstArrivals(selected: seq<Text>, l: Ledger, required: nat) {
    && |selected| == required
    && IdsAscend(selected)
    && (forall id :: id in selected ==> id in Arrivals(l))
    && (forall id, other :: id in selected && other in Arrivals(l) && other !in selected ==> Less(id, other))
  }

  lemma PrefixPrecedes(ids: seq<Text>, required: nat, id: Text, other: Text)
    requires IdsAscend(ids) && required <= |ids|
    requires id in ids[..required] && other in ids && other !in ids[..required]
    ensures Less(id, other)
  {
    var i :| 0 <= i < required && ids[i] == id;
    assert ids == ids[..required] + ids[required..];
    var j :| 0 <= j < |ids[required..]| && ids[required..][j] == other;
    assert ids[required + j] == other;
  }

  lemma PrefixIsFirst(l: Ledger, required: nat)
    requires Unique(l) && required <= |ArrivedIn(Sort(l))|
    ensures FirstArrivals(ArrivedIn(Sort(l))[..required], l, required)
  {
    hide Less, ArrivedIn, Sort, Unique;
    var ids := ArrivedIn(Sort(l));
    var selected := ids[..required];
    SameArrivals(l);
    assert forall id :: id in ids <==> id in Arrivals(l);
    forall id, other | id in selected && other in ids && other !in selected
      ensures Less(id, other)
    {
      PrefixPrecedes(ids, required, id, other);
    }
    assert forall id :: id in selected ==> id in ids;
  }

  /** `any` and `count` succeed exactly when enough branches arrived; what they select is determined. */
  lemma QuorumIsExact(policy: Policy, l: Ledger)
    requires l != [] && Unique(l) && !Has(l, Pending)
    requires policy == Any || (policy.Count? && 1 <= policy.count <= |l|)
    ensures var required := if policy == Any then 1 else policy.count;
            && (SettleJoin(policy, l).Satisfied? <==> |Arrivals(l)| >= required)
            && (SettleJoin(policy, l).Satisfied? ==> FirstArrivals(SettleJoin(policy, l).selected, l, required))
            && (|Arrivals(l)| < required ==> SettleJoin(policy, l) == Unsatisfied(InsufficientArrivals, Sort(l)))
  {
    hide FirstArrivals, Arrivals, Has, Unique, Sort, ArrivedIn;
    var required: nat := if policy == Any then 1 else policy.count;
    SettlesSorted(l);
    ArrivalsAreCounted(l);
    if |Arrivals(l)| >= required {
      PrefixIsFirst(l, required);
    }
  }

  /** FirstArrivals leaves no choice. */
  lemma FirstArrivalsAreUnique(s: seq<Text>, t: seq<Text>, l: Ledger, required: nat)
    requires FirstArrivals(s, l, required) && FirstArrivals(t, l, required)
    ensures s == t
  {
    AscendingIdsAreDistinct(s);
    AscendingIdsAreDistinct(t);
    var a, b := IdSet(s), IdSet(t);
    if a <= b {
      SameSizeSubset(a, b);
    } else if b <= a {
      SameSizeSubset(b, a);
    } else {
      var x :| x in a && x !in b;
      var y :| y in b && y !in a;
      LessIsStrict(x, y);
    }
    assert forall id :: id in s <==> id in IdSet(s);
    assert forall id :: id in t <==> id in IdSet(t);
    SameIdsSameOrder(s, t);
  }

  lemma SameSizeSubset(a: set<Text>, b: set<Text>)
    requires |a| == |b| && a <= b
    ensures a == b
  {
    assert b == a + (b - a);
  }

  lemma {:induction false} SameIdsSameOrder(s: seq<Text>, t: seq<Text>)
    requires IdsAscend(s) && IdsAscend(t)
    requires forall id :: id in s <==> id in t
    ensures s == t
  {
    var l, m := Named(s), Named(t);
    forall b
      ensures b in l <==> b in m
    {
      InNamed(s, b);
      InNamed(t, b);
    }
    AscendingIsCanonical(l, m);
    assert |s| == |t| && forall i :: 0 <= i < |s| ==> s[i] == l[i].id && t[i] == m[i].id;
  }

  function Named(ids: seq<Text>): Ledger { seq(|ids|, i requires 0 <= i < |ids| => Branch(ids[i], Arrived, None)) }

  lemma InNamed(ids: seq<Text>, b: Branch)
    ensures b in Named(ids) <==> b.id in ids && b == Branch(b.id, Arrived, None)
  {
    if b.id in ids && b == Branch(b.id, Arrived, None) {
      var i :| 0 <= i < |ids| && ids[i] == b.id;
      assert Named(ids)[i] == b;
    }
  }

  // ----- Recording -----

  /** The first entry with this id. */
  function Find(l: Ledger, id: Text): (found: Option<Branch>)
    ensures found.Some? ==> found.value in l && found.value.id == id
    ensures found == None <==> forall b :: b in l ==> b.id != id
  {
    if l == [] then None else if l[0].id == id then Some(l[0]) else Find(l[1..], id)
  }

  function Replaced(l: Ledger, update: Branch): Ledger {
    seq(|l|, i requires 0 <= i < |l| => if l[i].id == update.id then update else l[i])
  }

  function RecordBranchDisposition(l: Ledger, update: Branch): Recording {
    match Find(l, update.id)
    case None => Undeclared
    case Some(existing) =>
      if existing.disposition != Pending then
        if existing.disposition == update.disposition && existing.output == update.output then Recorded(Sort(l))
        else AlreadyTerminal
      else Recorded(Sort(Replaced(l, update)))
  }

  /** Updates recorded one after the other; the first refusal ends the attempt. */
  function RecordAll(l: Ledger, updates: seq<Branch>): Recording
    decreases |updates|
  {
    if updates == [] then Recorded(l)
    else
      match RecordBranchDisposition(l, updates[0])
      case Recorded(next) => RecordAll(next, updates[1..])
      case refused => refused
  }

  predicate Terminal(updates: seq<Branch>) { forall u :: u in updates ==> u.disposition != Pending }

  /** The updates agree with each other and with what is already terminal, and name declared branches. */
  predicate Consistent(l: Ledger, updates: seq<Branch>) {
    && (forall u :: u in updates ==> Accepts(l, u))
    && (forall u, v :: u in updates && v in updates && u.id == v.id ==> u == v)
  }

  predicate Accepts(l: Ledger, u: Branch) {
    exists i :: 0 <= i < |l| && l[i].id == u.id && (l[i].disposition == Pending || l[i] == u)
  }

  /** Entry b is in the ledger once the updates are in: as updated, or untouched. */
  predicate Merged(l: Ledger, updates: seq<Branch>, b: Branch) {
    b in updates || (b in l && forall u :: u in updates ==> u.id != b.id)
  }

  lemma SameIdSameEntry(l: Ledger, a: Branch, b: Branch)
    requires Unique(l) && a in l && b in l && a.id == b.id
    ensures a == b
  {
    var i :| 0 <= i < |l| && l[i] == a;
    var j :| 0 <= j < |l| && l[j] == b;
    assert i == j;
  }

  lemma ReplacedEntries(l: Ledger, u: Branch, e: Branch)
    requires Unique(l) && e in l && e.id == u.id
    ensures Unique(Replaced(l, u)) && |Replaced(l, u)| == |l|
    ensures forall b :: b in Replaced(l, u) <==> b == u || (b in l && b.id != u.id)
  {
    var m := Replaced(l, u);
    forall b
      ensures b in m <==> b == u || (b in l && b.id != u.id)
    {
      if b == u {
        var i :| 0 <= i < |l| && l[i] == e;
        assert m[i] == u;
      } else if b in l && b.id != u.id {
        var i :| 0 <= i < |l| && l[i] == b;
        assert m[i] == b;
      }
    }
  }

  /** One record: accepted exactly when the branch is declared and pending, or already says so. */
  lemma RecordOne(l: Ledger, u: Branch)
    requires Unique(l) && u.disposition != Pending
    ensures RecordBranchDisposition(l, u).Recorded? <==> Accepts(l, u)
    ensures RecordBranchDisposition(l, u).Recorded? ==>
              var m := RecordBranchDisposition(l, u).ledger;
              Ascending(m) && Unique(m) && |m| == |l|
              && forall b :: b in m <==> b == u || (b in l && b.id != u.id)
  {
    AcceptedIsDeclared(l, u);
    var found := Find(l, u.id);
    if found.Some? {
      var e := found.value;
      var i :| 0 <= i < |l| && l[i] == e;
      forall j | 0 <= j < |l| && l[j].id == u.id
        ensures l[j] == e
      {
        SameIdSameEntry(l, l[j], e);
      }
      if e.disposition == Pending {
        ReplacedEntries(l, u, e);
        SortedEntries(Replaced(l, u));
      } else if e == u {
        SortedEntries(l);
      }
    }
  }

  /** The two refusals: the branch is not declared, or it has ended otherwise. */
  lemma RefusedBecause(l: Ledger, u: Branch)
    requires Unique(l) && u.disposition != Pending
    ensures RecordBranchDisposition(l, u) == Undeclared <==> forall b :: b in l ==> b.id != u.id
    ensures RecordBranchDisposition(l, u) == AlreadyTerminal
            <==> exists b :: b in l && b.id == u.id && b.disposition != Pending && b != u
  {
    hide Unique, Sort;
    RecordOne(l, u);
    AcceptedIsDeclared(l, u);
    var found := Find(l, u.id);
    if found.Some? {
      forall b | b in l && b.id == u.id
        ensures b == found.value
      {
        SameIdSameEntry(l, b, found.value);
      }
    }
  }

  lemma AcceptedIsDeclared(l: Ledger, u: Branch)
    ensures Accepts(l, u) ==> exists b :: b in l && b.id == u.id
  {
    if Accepts(l, u) {
      var i :| 0 <= i < |l| && l[i].id == u.id;
      assert l[i] in l;
    }
  }

  lemma SortedEntries(l: Ledger)
    requires Unique(l)
    ensures Ascending(Sort(l)) && Unique(Sort(l)) && |Sort(l)| == |l|
    ensures forall b :: b in Sort(l) <==> b in l
  {
    SortAscends(l);
    SortKeeps(l);
    AscendingIsUnique(Sort(l));
  }

  /** After one record, what is acceptable and what the end result holds are unchanged. */
  lemma StepConsistent(l: Ledger, updates: seq<Branch>, next: Ledger)
    requires updates != [] && Accepts(l, updates[0])
    requires Unique(l) && Unique(next)
    requires forall b :: b in next <==> b == updates[0] || (b in l && b.id != updates[0].id)
    ensures Consistent(l, updates)
            <==> (Consistent(next, updates[1..])
                  && forall u :: u in updates[1..] && u.id == updates[0].id ==> u == updates[0])
  {
    var first, rest := updates[0], updates[1..];
    assert updates == [first] + rest;
    forall u | u in rest && (u.id == first.id ==> u == first)
      ensures Accepts(next, u) <==> Accepts(l, u)
    {
      StepAccepts(l, first, next, u);
    }
  }

  lemma StepAccepts(l: Ledger, first: Branch, next: Ledger, u: Branch)
    requires Accepts(l, first) && (u.id == first.id ==> u == first)
    requires forall b :: b in next <==> b == first || (b in l && b.id != first.id)
    ensures Accepts(next, u) <==> Accepts(l, u)
  {
    if u == first {
      assert first in next;
      var i :| 0 <= i < |next| && next[i] == first;
      assert Accepts(next, u);
    } else {
      SameEntryAccepts(l, next, u);
      SameEntryAccepts(next, l, u);
    }
  }

  lemma SameEntryAccepts(l: Ledger, m: Ledger, u: Branch)
    requires forall b :: b in l && b.id == u.id ==> b in m
    ensures Accepts(l, u) ==> Accepts(m, u)
  {
    if Accepts(l, u) {
      var i :| 0 <= i < |l| && l[i].id == u.id && (l[i].disposition == Pending || l[i] == u);
      assert l[i] in m;
      var j :| 0 <= j < |m| && m[j] == l[i];
    }
  }

  lemma RepeatAgrees(first: Branch, next: Ledger, u: Branch)
    requires first.disposition != Pending && first in next && Unique(next)
    requires u.id == first.id && Accepts(next, u)
    ensures u == first
  {
    var i :| 0 <= i < |next| && next[i].id == u.id && (next[i].disposition == Pending || next[i] == u);
    SameIdSameEntry(next, next[i], first);
  }

  /** The attempt succeeds exactly when the updates are consistent, and then leaves exactly the
      merged entries. */
  lemma {:induction false} RecordAllIs(l: Ledger, updates: seq<Branch>)
    requires Unique(l) && Terminal(updates)
    ensures RecordAll(l, updates).Recorded? <==> Consistent(l, updates)
    ensures RecordAll(l, updates).Recorded? ==>
              var m := RecordAll(l, updates).ledger;
              Unique(m) && |m| == |l| && (updates != [] ==> Ascending(m))
              && forall b :: b in m <==> Merged(l, updates, b)
    decreases |updates|
  {
    if updates != [] {
      var first, rest := updates[0], updates[1..];
      RecordOne(l, first);
      if Accepts(l, first) {
        var next := RecordBranchDisposition(l, first).ledger;
        RecordAllIs(next, rest);
        StepConsistent(l, updates, next);
        forall u | u in rest && Consistent(next, rest) && u.id == first.id
          ensures u == first
        {
          RepeatAgrees(first, next, u);
        }
        if Consistent(l, updates) {
          StepMerged(l, updates, next);
          LastAscends(next, rest);
        }
      }
    }
  }

  lemma LastAscends(l: Ledger, updates: seq<Branch>)
    requires Ascending(l) && RecordAll(l, updates).Recorded?
    requires updates != [] ==> Ascending(RecordAll(l, updates).ledger)
    ensures Ascending(RecordAll(l, updates).ledger)
  {
  }

  lemma StepMerged(l: Ledger, updates: seq<Branch>, next: Ledger)
    requires updates != [] && Consistent(l, updates)
    requires forall b :: b in next <==> b == updates[0] || (b in l && b.id != updates[0].id)
    ensures forall b :: Merged(next, updates[1..], b) <==> Merged(l, updates, b)
  {
    assert updates == [updates[0]] + updates[1..];
  }

  /** Confluence: any order and any number of identical redeliveries of a consistent set of terminal
      updates leave the same ledger, and a conflicting set is refused in every order. */
  lemma RecordingIsConfluent(l: Ledger, us: seq<Branch>, vs: seq<Branch>)
    requires Unique(l) && Terminal(us)
    requires us != [] && vs != [] && forall u :: u in us <==> u in vs
    ensures RecordAll(l, us).Recorded? <==> RecordAll(l, vs).Recorded?
    ensures RecordAll(l, us).Recorded? <==> Consistent(l, us)
    ensures RecordAll(l, us).Recorded? ==> RecordAll(l, us) == RecordAll(l, vs)
  {
    hide Ascending, Unique;
    RecordAllIs(l, us);
    RecordAllIs(l, vs);
    if Consistent(l, us) {
      var m, n := RecordAll(l, us).ledger, RecordAll(l, vs).ledger;
      assert forall b :: b in m <==> b in n by {
        assert forall b :: Merged(l, us, b) <==> Merged(l, vs, b);
      }
      AscendingIsCanonical(m, n);
    }
  }

  /** The join waits exactly as long as some branch is neither terminal nor updated. */
  lemma WaitsForTheRest(policy: Policy, l: Ledger, us: seq<Branch>)
    requires Unique(l) && Terminal(us) && Consistent(l, us)
    ensures RecordAll(l, us).Recorded?
    ensures SettleJoin(policy, RecordAll(l, us).ledger) == Waiting
            <==> exists b :: b in l && b.disposition == Pending && forall u :: u in us ==> u.id != b.id
  {
    hide Consistent, Unique, RecordAll, SettleJoin, Ascending;
    RecordAllIs(l, us);
    var m := RecordAll(l, us).ledger;
    WaitingIffPending(policy, m);
    if Has(m, Pending) {
      var i :| 0 <= i < |m| && m[i].disposition == Pending;
      assert m[i] in m && Merged(l, us, m[i]);
    }
    if b :| b in l && b.disposition == Pending && forall u :: u in us ==> u.id != b.id {
      assert Merged(l, us, b) && b in m;
      var i :| 0 <= i < |m| && m[i] == b;
    }
  }

  /** Once settled a decision stands: later records are redeliveries or are refused. */
  lemma SettledIsFinal(policy: Policy, l: Ledger, us: seq<Branch>)
    requires Unique(l) && Terminal(us) && !Has(l, Pending) && RecordAll(l, us).Recorded?
    ensures forall u :: u in us ==> u in l
    ensures SettleJoin(policy, RecordAll(l, us).ledger) == SettleJoin(policy, l)
  {
    hide SettleJoin, RecordAll;
    RecordAllIs(l, us);
    var m := RecordAll(l, us).ledger;
    forall u | u in us
      ensures u in l
    {
      var i :| 0 <= i < |l| && l[i].id == u.id && (l[i].disposition == Pending || l[i] == u);
    }
    forall b
      ensures b in m <==> b in l
    {
      if b in l {
        if u :| u in us && u.id == b.id {
          SameIdSameEntry(l, u, b);
        }
      }
    }
    SameEntriesSettleAlike(policy, m, l);
  }

  lemma SameEntriesSettleAlike(policy: Policy, l: Ledger, m: Ledger)
    requires Unique(l) && Unique(m) && forall b :: b in l <==> b in m
    ensures SettleJoin(policy, l) == SettleJoin(policy, m)
  {
    SortedEntries(l);
    SortedEntries(m);
    AscendingIsCanonical(Sort(l), Sort(m));
    SettlesBySort(policy, l, m);
  }

  ghost function PendingIds(l: Ledger): set<Text> { set b | b in l && b.disposition == Pending :: b.id }

  /** Each fresh record lowers the number of pending branches by one; a redelivery leaves it. */
  lemma FreshRecordSettlesOne(l: Ledger, u: Branch)
    requires Unique(l) && u.disposition != Pending && RecordBranchDisposition(l, u).Recorded?
    ensures var m := RecordBranchDisposition(l, u).ledger;
            |PendingIds(m)| == |PendingIds(l)| - (if u.id in PendingIds(l) then 1 else 0)
  {
    hide RecordBranchDisposition, Accepts;
    RecordOne(l, u);
    var m := RecordBranchDisposition(l, u).ledger;
    assert PendingIds(m) == PendingIds(l) - {u.id};
  }

  lemma {:induction false} PendingAfter(l: Ledger, us: seq<Branch>)
    requires Unique(l) && Terminal(us) && RecordAll(l, us).Recorded?
    ensures PendingIds(RecordAll(l, us).ledger) == PendingIds(l) - set u | u in us :: u.id
  {
    hide RecordAll, Consistent, Ascending, Unique;
    RecordAllIs(l, us);
    var m := RecordAll(l, us).ledger;
    var ids := set u | u in us :: u.id;
    forall id
      ensures id in PendingIds(m) <==> id in PendingIds(l) && id !in ids
    {
      if id in PendingIds(m) {
        var b :| b in m && b.disposition == Pending && b.id == id;
        assert Merged(l, us, b);
      }
      if id in PendingIds(l) && id !in ids {
        var b :| b in l && b.disposition == Pending && b.id == id;
        assert Merged(l, us, b);
      }
    }
  }

  /** As many records of different pending branches as there are pending branches settle a valid join. */
  lemma EnoughRecordsSettle(policy: Policy, l: Ledger, us: seq<Branch>)
    requires Unique(l) && Terminal(us) && RecordAll(l, us).Recorded?
    requires forall u :: u in us ==> u.id in PendingIds(l)
    requires forall i, j :: 0 <= i < j < |us| ==> us[i].id != us[j].id
    ensures SettleJoin(policy, RecordAll(l, us).ledger) == Waiting <==> |us| < |PendingIds(l)|
    ensures |us| <= |PendingIds(l)|
  {
    hide RecordAll, SettleJoin, Terminal;
    var m := RecordAll(l, us).ledger;
    PendingAfter(l, us);
    var ids := set u | u in us :: u.id;
    DistinctIds(us);
    assert ids <= PendingIds(l);
    assert |PendingIds(m)| == |PendingIds(l)| - |us| by {
      assert PendingIds(l) == (PendingIds(l) - ids) + ids;
    }
    RecordAllIs(l, us);
    WaitingIffPending(policy, m);
    PendingIffIds(m);
  }

  lemma PendingIffIds(l: Ledger)
    ensures Has(l, Pending) <==> |PendingIds(l)| > 0
  {
    if Has(l, Pending) {
      var i :| 0 <= i < |l| && l[i].disposition == Pending;
      assert l[i] in l;
      assert l[i].id in PendingIds(l);
    } else {
      assert PendingIds(l) == {};
    }
  }

  lemma {:induction false} DistinctIds(us: seq<Branch>)
    requires forall i, j :: 0 <= i < j < |us| ==> us[i].id != us[j].id
    ensures |set u | u in us :: u.id| == |us|
  {
    if us != [] {
      DistinctIds(us[1..]);
      var ids, rest := set u | u in us :: u.id, set u | u in us[1..] :: u.id;
      assert us == [us[0]] + us[1..];
      assert us[0].id !in rest;
      assert ids == {us[0].id} + rest;
    }
  }
}
