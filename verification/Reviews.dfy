/** Deriving one review state from a pull request's reviews: a sticky fold per reviewer. GitHub and Gitea
  * share it, each with its own words. */
module Reviews {
  import opened Prelude

  datatype Review = Review(state: string, submittedAt: Option<int>, login: Option<string>)

  /** The words of a provider that are not common to both. */
  datatype Provider = Provider(changesRequested: string, commented: string)

  const GITHUB := Provider("CHANGES_REQUESTED", "COMMENTED")
  const GITEA := Provider("REQUEST_CHANGES", "COMMENT")

  datatype Kind = Changes | Approval | Dismissal | Comment | Other

  function KindOf(p: Provider, state: string): Kind {
    if state == p.changesRequested then Changes
    else if state == "APPROVED" then Approval
    else if state == "DISMISSED" then Dismissal
    else if state == p.commented then Comment
    else Other
  }

  /** A reviewer; a review without a login counts as a reviewer of its own. */
  datatype Reviewer = Login(name: string) | Unknown(index: nat)

  datatype ReviewState = NoReviews | ChangesRequested | Approved | Commented | Dismissed | PendingReview

  // ---------- sorting ----------

  function TimeOf(r: Review): int {
    if r.submittedAt.Some? then r.submittedAt.value else 0
  }

  function Insert(rs: seq<Review>, r: Review): (s: seq<Review>)
    ensures |s| == |rs| + 1
  {
    if rs == [] then [r]
    else if TimeOf(rs[|rs| - 1]) <= TimeOf(r) then rs + [r]
    else Insert(rs[..|rs| - 1], r) + [rs[|rs| - 1]]
  }

  /** The stable sort by submission time. */
  function Sort(rs: seq<Review>): (s: seq<Review>)
    ensures |s| == |rs|
  {
    if rs == [] then [] else Insert(Sort(rs[..|rs| - 1]), rs[|rs| - 1])
  }

  lemma {:induction false} InsertPermutes(rs: seq<Review>, r: Review)
    ensures multiset(Insert(rs, r)) == multiset(rs) + multiset{r}
  {
    if rs != [] && TimeOf(rs[|rs| - 1]) > TimeOf(r) {
      InsertPermutes(rs[..|rs| - 1], r);
      assert rs == rs[..|rs| - 1] + [rs[|rs| - 1]];
    }
  }

  lemma {:induction false} SortPermutes(rs: seq<Review>)
    ensures multiset(Sort(rs)) == multiset(rs)
  {
    if rs != [] {
      SortPermutes(rs[..|rs| - 1]);
      InsertPermutes(Sort(rs[..|rs| - 1]), rs[|rs| - 1]);
      assert rs == rs[..|rs| - 1] + [rs[|rs| - 1]];
    }
  }

  ghost predicate Sorted(rs: seq<Review>) {
    forall i, j | 0 <= i < j < |rs| :: TimeOf(rs[i]) <= TimeOf(rs[j])
  }

  lemma {:induction false} InsertSorts(rs: seq<Review>, r: Review)
    requires Sorted(rs)
    ensures Sorted(Insert(rs, r))
    ensures forall i | 0 <= i < |rs| + 1 :: Insert(rs, r)[i] == r || Insert(rs, r)[i] in rs
  {
    if rs != [] && TimeOf(rs[|rs| - 1]) > TimeOf(r) {
      InsertSorts(rs[..|rs| - 1], r);
    }
  }

  lemma {:induction false} SortSorts(rs: seq<Review>)
    ensures Sorted(Sort(rs))
  {
    if rs != [] {
      SortSorts(rs[..|rs| - 1]);
      InsertSorts(Sort(rs[..|rs| - 1]), rs[|rs| - 1]);
    }
  }

  /** The reviews submitted at one time, in order. */
  function At(rs: seq<Review>, time: int): seq<Review> {
    if rs == [] then []
    else At(rs[..|rs| - 1], time) + if TimeOf(rs[|rs| - 1]) == time then [rs[|rs| - 1]] else []
  }

  lemma {:induction false} InsertIsStable(rs: seq<Review>, r: Review, time: int)
    ensures At(Insert(rs, r), time) == At(rs + [r], time)
    decreases |rs|
  {
    assert (rs + [r])[..|rs|] == rs;
    if rs != [] && TimeOf(rs[|rs| - 1]) > TimeOf(r) {
      var front := rs[..|rs| - 1];
      InsertIsStable(front, r, time);
      assert (front + [r])[..|front|] == front;
      assert Insert(rs, r)[..|rs|] == Insert(front, r);
    }
  }

  /** Reviews submitted at the same time keep their order. */
  lemma {:induction false} SortIsStable(rs: seq<Review>, time: int)
    ensures At(Sort(rs), time) == At(rs, time)
  {
    if rs != [] {
      var front := Sort(rs[..|rs| - 1]);
      SortIsStable(rs[..|rs| - 1], time);
      InsertIsStable(front, rs[|rs| - 1], time);
      assert (front + [rs[|rs| - 1]])[..|front|] == front;
    }
  }

  // ---------- the meaning ----------

  function ReviewerAt(sorted: seq<Review>, i: nat): Reviewer
    requires i < |sorted|
  {
    if sorted[i].login.Some? then Login(sorted[i].login.value) else Unknown(i)
  }

  predicate IsBy(sorted: seq<Review>, i: nat, who: Reviewer) {
    i < |sorted| && ReviewerAt(sorted, i) == who
  }

  /** Review `i` clears any block of its author. */
  predicate Clears(p: Provider, sorted: seq<Review>, i: nat)
    requires i < |sorted|
  {
    KindOf(p, sorted[i].state) == Approval || KindOf(p, sorted[i].state) == Dismissal
  }

  /** Review `i` is by `who`, requests changes, and `who` has not approved or dismissed since. */
  ghost predicate BlockingAt(p: Provider, sorted: seq<Review>, i: nat, who: Reviewer) {
    && IsBy(sorted, i, who)
    && KindOf(p, sorted[i].state) == Changes
    && forall j: nat | i < j && IsBy(sorted, j, who) :: !Clears(p, sorted, j)
  }

  ghost predicate Blocks(p: Provider, sorted: seq<Review>, who: Reviewer) {
    exists i: nat :: BlockingAt(p, sorted, i, who)
  }

  ghost predicate AnyBlocks(p: Provider, sorted: seq<Review>) {
    exists who :: Blocks(p, sorted, who)
  }

  ghost predicate IsLatest(sorted: seq<Review>, i: nat) {
    i < |sorted| && forall j: nat | i < j < |sorted| :: ReviewerAt(sorted, j) != ReviewerAt(sorted, i)
  }

  /** The latest review of `who` is of this kind. */
  ghost predicate LatestIs(p: Provider, sorted: seq<Review>, who: Reviewer, kind: Kind) {
    exists i: nat :: IsLatest(sorted, i) && IsBy(sorted, i, who) && KindOf(p, sorted[i].state) == kind
  }

  ghost function Verdict(p: Provider, sorted: seq<Review>): ReviewState {
    if sorted == [] then NoReviews
    else if AnyBlocks(p, sorted) then ChangesRequested
    else if exists who :: LatestIs(p, sorted, who, Approval) then Approved
    else match KindOf(p, sorted[|sorted| - 1].state)
         case Comment => Commented
         case Dismissal => Dismissed
         case _ => PendingReview
  }

  // ---------- the fold ----------

  ghost predicate BlocksNext(p: Provider, sorted: seq<Review>, n: nat, who: Reviewer)
    requires n < |sorted|
  {
    if ReviewerAt(sorted, n) != who then Blocks(p, sorted[..n], who)
    else if KindOf(p, sorted[n].state) == Changes then true
    else if KindOf(p, sorted[n].state) == Approval || KindOf(p, sorted[n].state) == Dismissal then false
    else Blocks(p, sorted[..n], who)
  }

  ghost predicate LatestNext(p: Provider, sorted: seq<Review>, n: nat, who: Reviewer, kind: Kind)
    requires n < |sorted|
  {
    if ReviewerAt(sorted, n) == who then KindOf(p, sorted[n].state) == kind else LatestIs(p, sorted[..n], who, kind)
  }

  lemma BlocksSnoc(p: Provider, sorted: seq<Review>, n: nat, who: Reviewer)
    requires n < |sorted|
    ensures Blocks(p, sorted[..n + 1], who) <==> BlocksNext(p, sorted, n, who)
  {
    var before, after := sorted[..n], sorted[..n + 1];
    SnocReviewers(sorted, n, who);
    if ReviewerAt(sorted, n) == who && KindOf(p, sorted[n].state) == Changes {
      assert BlockingAt(p, after, n, who);
    }
    forall i: nat | i < n
      ensures BlockingAt(p, after, i, who) <==>
              BlockingAt(p, before, i, who) && (ReviewerAt(sorted, n) == who ==> !Clears(p, sorted, n))
    {
      BlockingSnoc(p, sorted, n, i, who);
    }
  }

  lemma BlockingSnoc(p: Provider, sorted: seq<Review>, n: nat, i: nat, who: Reviewer)
    requires i < n < |sorted|
    ensures BlockingAt(p, sorted[..n + 1], i, who) <==>
            BlockingAt(p, sorted[..n], i, who) && (ReviewerAt(sorted, n) == who ==> !Clears(p, sorted, n))
  {
    var before, after := sorted[..n], sorted[..n + 1];
    SnocReviewers(sorted, n, who);
    assert forall j: nat | j < n :: Clears(p, after, j) <==> Clears(p, before, j);
    assert Clears(p, after, n) <==> Clears(p, sorted, n);
    if BlockingAt(p, after, i, who) {
      assert forall j: nat | i < j && IsBy(before, j, who) :: IsBy(after, j, who);
    }
  }

  lemma SnocReviewers(sorted: seq<Review>, n: nat, who: Reviewer)
    requires n < |sorted|
    ensures forall i: nat | i < n :: ReviewerAt(sorted[..n + 1], i) == ReviewerAt(sorted[..n], i)
    ensures forall i: nat | i < n :: IsBy(sorted[..n + 1], i, who) <==> IsBy(sorted[..n], i, who)
    ensures IsBy(sorted[..n + 1], n, who) <==> ReviewerAt(sorted, n) == who
  {
  }

  lemma LatestSnoc(p: Provider, sorted: seq<Review>, n: nat, who: Reviewer, kind: Kind)
    requires n < |sorted|
    ensures LatestIs(p, sorted[..n + 1], who, kind) <==> LatestNext(p, sorted, n, who, kind)
  {
    var before, after := sorted[..n], sorted[..n + 1];
    SnocReviewers(sorted, n, who);
    assert IsLatest(after, n);
    if ReviewerAt(sorted, n) == who {
      assert IsBy(after, n, who);
      assert forall i: nat | i < n && IsBy(after, i, who) :: !IsLatest(after, i);
    } else {
      forall i: nat | i < n && IsBy(before, i, who)
        ensures IsLatest(before, i) <==> IsLatest(after, i)
      {
        LatestLonger(sorted, n, i);
      }
      assert LatestIs(p, before, who, kind) <==>
        exists i: nat :: i < n && IsLatest(after, i) && IsBy(after, i, who) && KindOf(p, after[i].state) == kind;
    }
  }

  lemma LatestLonger(sorted: seq<Review>, n: nat, i: nat)
    requires i < n < |sorted| && ReviewerAt(sorted, n) != ReviewerAt(sorted, i)
    ensures IsLatest(sorted[..n], i) <==> IsLatest(sorted[..n + 1], i)
  {
    var before, after := sorted[..n], sorted[..n + 1];
    assert forall j: nat | j < n :: ReviewerAt(before, j) == ReviewerAt(after, j);
    assert ReviewerAt(after, n) == ReviewerAt(sorted, n);
    if IsLatest(before, i) {
      forall j: nat | i < j <= n ensures ReviewerAt(after, j) != ReviewerAt(after, i) {
      }
    }
    if IsLatest(after, i) {
      forall j: nat | i < j < n ensures ReviewerAt(before, j) != ReviewerAt(before, i) {
        assert ReviewerAt(after, j) != ReviewerAt(after, i);
      }
    }
  }

  /** What the two maps hold after the reviews in `sorted`. */
  ghost predicate FoldOf(p: Provider, sorted: seq<Review>, blocking: map<Reviewer, bool>, latest: map<Reviewer, Kind>) {
    && (forall who :: (who in blocking && blocking[who]) <==> Blocks(p, sorted, who))
    && (forall who, kind :: (who in latest && latest[who] == kind) <==> LatestIs(p, sorted, who, kind))
  }

  function BlockingAfter(blocking: map<Reviewer, bool>, key: Reviewer, kind: Kind): map<Reviewer, bool> {
    match kind
    case Changes => blocking[key := true]
    case Approval | Dismissal => blocking[key := false]
    case _ => blocking
  }

  lemma FoldStep(p: Provider, sorted: seq<Review>, n: nat, blocking: map<Reviewer, bool>, latest: map<Reviewer, Kind>)
    requires n < |sorted| && FoldOf(p, sorted[..n], blocking, latest)
    ensures var key, kind := ReviewerAt(sorted, n), KindOf(p, sorted[n].state);
            FoldOf(p, sorted[..n + 1], BlockingAfter(blocking, key, kind), latest[key := kind])
  {
    var key, kind := ReviewerAt(sorted, n), KindOf(p, sorted[n].state);
    var blocking', latest' := BlockingAfter(blocking, key, kind), latest[key := kind];
    forall who ensures (who in blocking' && blocking'[who]) <==> Blocks(p, sorted[..n + 1], who) {
      BlocksSnoc(p, sorted, n, who);
    }
    var after := sorted[..n + 1];
    forall who, k ensures (who in latest' && latest'[who] == k) <==> LatestIs(p, after, who, k) {
      LatestSnoc(p, sorted, n, who, k);
    }
  }

  method DeriveReviewState(p: Provider, reviews: seq<Review>) returns (state: ReviewState)
    ensures state == Verdict(p, Sort(reviews))
  {
    if |reviews| == 0 {
      return NoReviews;
    }
    var sorted := Sort(reviews);
    var latestByReviewer: map<Reviewer, Kind> := map[];
    var blockingByReviewer: map<Reviewer, bool> := map[];
    for index := 0 to |sorted|
      invariant FoldOf(p, sorted[..index], blockingByReviewer, latestByReviewer)
    {
      FoldStep(p, sorted, index, blockingByReviewer, latestByReviewer);
      var key, kind := ReviewerAt(sorted, index), KindOf(p, sorted[index].state);
      latestByReviewer := latestByReviewer[key := kind];
      if kind == Changes {
        blockingByReviewer := blockingByReviewer[key := true];
      } else if kind == Approval || kind == Dismissal {
        blockingByReviewer := blockingByReviewer[key := false];
      }
    }
    assert sorted[..|sorted|] == sorted;
    var anyReviewerStillBlocking := exists who <- blockingByReviewer :: blockingByReviewer[who];
    var anyLatestChanges := exists who <- latestByReviewer :: latestByReviewer[who] == Changes;
    var anyLatestApproval := exists who <- latestByReviewer :: latestByReviewer[who] == Approval;
    FoldDecides(p, sorted, blockingByReviewer, latestByReviewer);
    if anyReviewerStillBlocking || anyLatestChanges {
      return ChangesRequested;
    }
    if anyLatestApproval {
      return Approved;
    }
    match KindOf(p, sorted[|sorted| - 1].state) {
      case Comment => return Commented;
      case Dismissal => return Dismissed;
      case _ => return PendingReview;
    }
  }

  /** What the tests on the two maps mean; the second one of the code is implied by the first. */
  lemma FoldDecides(p: Provider, sorted: seq<Review>, blocking: map<Reviewer, bool>, latest: map<Reviewer, Kind>)
    requires FoldOf(p, sorted, blocking, latest)
    ensures (exists who <- blocking :: blocking[who]) <==> AnyBlocks(p, sorted)
    ensures (exists who <- latest :: latest[who] == Changes) ==> (exists who <- blocking :: blocking[who])
    ensures (exists who <- latest :: latest[who] == Approval) <==> (exists who :: LatestIs(p, sorted, who, Approval))
  {
    LatestChangesBlock(p, sorted);
    if who :| who in latest && latest[who] == Changes {
      assert LatestIs(p, sorted, who, Changes);
      assert Blocks(p, sorted, who);
    }
    if who :| Blocks(p, sorted, who) {
      assert who in blocking && blocking[who];
    }
    if who :| LatestIs(p, sorted, who, Approval) {
      assert who in latest && latest[who] == Approval;
    }
    if who :| who in latest && latest[who] == Approval {
      assert LatestIs(p, sorted, who, Approval);
    }
  }

  /** The second test of the code, "some latest review requests changes", is implied by the first. */
  lemma LatestChangesBlock(p: Provider, sorted: seq<Review>)
    ensures forall who :: LatestIs(p, sorted, who, Changes) ==> Blocks(p, sorted, who)
  {
    forall who | LatestIs(p, sorted, who, Changes) ensures Blocks(p, sorted, who) {
      var i: nat :| IsLatest(sorted, i) && IsBy(sorted, i, who) && KindOf(p, sorted[i].state) == Changes;
      assert BlockingAt(p, sorted, i, who);
    }
  }

  // ---------- the order of the input ----------

  predicate DistinctTimes(rs: seq<Review>) {
    forall i, j | 0 <= i < j < |rs| :: TimeOf(rs[i]) != TimeOf(rs[j])
  }

  lemma {:induction false} SortedIsUnique(a: seq<Review>, b: seq<Review>)
    requires Sorted(a) && Sorted(b) && multiset(a) == multiset(b) && DistinctTimes(a) && DistinctTimes(b)
    ensures a == b
    decreases |a|
  {
    assert |multiset(a)| == |a| && |multiset(b)| == |b|;
    if a != [] {
      SameHead(a, b);
      Tails(a);
      Tails(b);
      SortedIsUnique(a[1..], b[1..]);
    }
  }

  lemma SameHead(a: seq<Review>, b: seq<Review>)
    requires Sorted(a) && Sorted(b) && multiset(a) == multiset(b) && a != [] && b != [] && DistinctTimes(b)
    ensures a[0] == b[0]
  {
    assert a[0] in multiset(b) && b[0] in multiset(a);
    var i :| 0 <= i < |b| && b[i] == a[0];
    var j :| 0 <= j < |a| && a[j] == b[0];
    assert TimeOf(a[0]) <= TimeOf(a[j]);
    assert TimeOf(b[0]) <= TimeOf(b[i]);
  }

  lemma Tails(a: seq<Review>)
    requires a != [] && Sorted(a) && DistinctTimes(a)
    ensures a == [a[0]] + a[1..]
    ensures multiset(a[1..]) == multiset(a) - multiset{a[0]}
    ensures Sorted(a[1..]) && DistinctTimes(a[1..])
  {
    assert a == [a[0]] + a[1..];
  }

  lemma {:induction false} DistinctAgain(a: seq<Review>, b: seq<Review>)
    requires multiset(a) == multiset(b) && DistinctTimes(a)
    ensures DistinctTimes(b)
  {
    forall i, j | 0 <= i < j < |b| ensures TimeOf(b[i]) != TimeOf(b[j]) {
      assert b[i] in multiset(a) && b[j] in multiset(a);
      var m :| 0 <= m < |a| && a[m] == b[i];
      var n :| 0 <= n < |a| && a[n] == b[j];
      if m == n {
        CountTwice(b, i, j);
        CountOnce(a, m);
      }
    }
  }

  lemma CountTwice(b: seq<Review>, i: nat, j: nat)
    requires i < j < |b| && b[i] == b[j]
    ensures multiset(b)[b[i]] >= 2
  {
    assert b == b[..i] + ([b[i]] + (b[i + 1..j] + ([b[j]] + b[j + 1..])));
  }

  lemma CountOnce(a: seq<Review>, m: nat)
    requires m < |a| && DistinctTimes(a)
    ensures multiset(a)[a[m]] == 1
  {
    assert a == a[..m] + ([a[m]] + a[m + 1..]);
    assert a[m] !in a[..m] && a[m] !in a[m + 1..];
  }

  /** With distinct submission times, the verdict does not depend on the order of the input. */
  lemma OrderIndependent(p: Provider, a: seq<Review>, b: seq<Review>)
    requires multiset(a) == multiset(b) && DistinctTimes(a)
    ensures Verdict(p, Sort(a)) == Verdict(p, Sort(b))
  {
    SortSorts(a);
    SortSorts(b);
    SortPermutes(a);
    SortPermutes(b);
    DistinctAgain(a, Sort(a));
    DistinctAgain(a, Sort(b));
    SortedIsUnique(Sort(a), Sort(b));
  }

  // ---------- comments never change who blocks ----------

  function With(s: seq<Review>, i: nat, r: Review): seq<Review>
    requires i <= |s|
  {
    s[..i] + [r] + s[i..]
  }

  /** `t` is `s` with `c` put in somewhere. */
  ghost predicate OneMore(s: seq<Review>, t: seq<Review>, c: Review)
    decreases |s|
  {
    || t == s + [c]
    || (|s| > 0 && |t| == |s| + 1 && t[|s|] == s[|s| - 1] && OneMore(s[..|s| - 1], t[..|s|], c))
  }

  lemma OneMoreSnoc(s: seq<Review>, t: seq<Review>, c: Review, z: Review)
    requires OneMore(s, t, c) && |t| == |s| + 1
    ensures OneMore(s + [z], t + [z], c)
  {
    assert (s + [z])[..|s|] == s && (t + [z])[..|t|] == t;
  }

  lemma {:induction false} InsertPast(s: seq<Review>, t: seq<Review>, c: Review, y: Review)
    requires OneMore(s, t, c) && |t| == |s| + 1 && Sorted(t)
    ensures OneMore(Insert(s, y), Insert(t, y), c)
    decreases |s|
  {
    if t == s + [c] {
      assert t[..|s|] == s && t[|s|] == c;
      if TimeOf(c) <= TimeOf(y) {
        assert s != [] ==> t[|s| - 1] == s[|s| - 1] && TimeOf(t[|s| - 1]) <= TimeOf(t[|s|]);
        assert Insert(s, y) == s + [y];
        OneMoreSnoc(s, t, c, y);
      }
    } else if TimeOf(t[|s|]) <= TimeOf(y) {
      OneMoreSnoc(s, t, c, y);
    } else {
      InsertPast(s[..|s| - 1], t[..|s|], c, y);
      OneMoreSnoc(Insert(s[..|s| - 1], y), Insert(t[..|s|], y), c, t[|s|]);
    }
  }

  lemma {:induction false} InsertAddsOne(s: seq<Review>, c: Review)
    ensures OneMore(s, Insert(s, c), c)
  {
    if s != [] && TimeOf(s[|s| - 1]) > TimeOf(c) {
      InsertAddsOne(s[..|s| - 1], c);
      OneMoreSnoc(s[..|s| - 1], Insert(s[..|s| - 1], c), c, s[|s| - 1]);
      assert s == s[..|s| - 1] + [s[|s| - 1]];
    }
  }

  /** Sorting a list with one more review gives the sorted list with one more review. */
  lemma {:induction false} SortOneMore(s: seq<Review>, t: seq<Review>, c: Review)
    requires OneMore(s, t, c) && |t| == |s| + 1
    ensures OneMore(Sort(s), Sort(t), c)
    decreases |s|
  {
    if t == s + [c] {
      assert t[..|s|] == s && t[|s|] == c;
      InsertAddsOne(Sort(s), c);
    } else {
      SortOneMore(s[..|s| - 1], t[..|s|], c);
      SortSorts(t[..|s|]);
      InsertPast(Sort(s[..|s| - 1]), Sort(t[..|s|]), c, t[|s|]);
    }
  }

  lemma {:induction false} WithIsOneMore(s: seq<Review>, i: nat, c: Review)
    requires i <= |s|
    ensures OneMore(s, With(s, i, c), c)
    decreases |s|
  {
    if i == |s| {
      assert With(s, i, c) == s + [c];
    } else {
      WithIsOneMore(s[..|s| - 1], i, c);
      assert With(s, i, c)[..|s|] == With(s[..|s| - 1], i, c);
    }
  }

  lemma {:induction false} OneMoreIsWith(s: seq<Review>, t: seq<Review>, c: Review) returns (k: nat)
    requires OneMore(s, t, c)
    ensures k <= |s| && t == With(s, k, c)
    decreases |s|
  {
    if t == s + [c] {
      k := |s|;
      assert s[..k] == s;
    } else {
      k := OneMoreIsWith(s[..|s| - 1], t[..|s|], c);
      assert t == t[..|s|] + [t[|s|]];
      assert s[k..] == s[..|s| - 1][k..] + [s[|s| - 1]];
    }
  }

  predicate IsPassive(p: Provider, r: Review) {
    KindOf(p, r.state) == Comment || KindOf(p, r.state) == Other
  }

  /** Where position `i` of the list goes when a review is inserted at `k`. */
  function Moved(k: nat, i: nat): nat {
    if i < k then i else i + 1
  }

  lemma SameReviewers(s: seq<Review>, k: nat, c: Review, i: nat, j: nat)
    requires k <= |s| && i < |s| && j < |s|
    ensures ReviewerAt(With(s, k, c), Moved(k, i)) == ReviewerAt(With(s, k, c), Moved(k, j))
            <==> ReviewerAt(s, i) == ReviewerAt(s, j)
  {
  }

  lemma WithAt(s: seq<Review>, k: nat, c: Review)
    requires k <= |s|
    ensures |With(s, k, c)| == |s| + 1 && With(s, k, c)[k] == c
    ensures forall i: nat | i < |s| :: With(s, k, c)[Moved(k, i)] == s[i]
  {
  }

  function MovedBack(k: nat, j: nat): (i: nat)
    requires j != k
    ensures Moved(k, i) == j
  {
    if j < k then j else j - 1
  }

  lemma PassiveKeepsBlock(p: Provider, s: seq<Review>, k: nat, c: Review, i: nat, who: Reviewer)
    requires k <= |s| && IsPassive(p, c) && BlockingAt(p, s, i, who)
    ensures BlockingAt(p, With(s, k, c), Moved(k, i), ReviewerAt(With(s, k, c), Moved(k, i)))
  {
    var s' := With(s, k, c);
    WithAt(s, k, c);
    var who' := ReviewerAt(s', Moved(k, i));
    forall j: nat | Moved(k, i) < j && IsBy(s', j, who') ensures !Clears(p, s', j) {
      if j != k {
        var j0 := MovedBack(k, j);
        SameReviewers(s, k, c, i, j0);
        assert IsBy(s, j0, who) && !Clears(p, s, j0);
      }
    }
  }

  lemma PassiveAddsNoBlock(p: Provider, s: seq<Review>, k: nat, c: Review, i: nat, who: Reviewer)
    requires k <= |s| && i < |s| && IsPassive(p, c) && BlockingAt(p, With(s, k, c), Moved(k, i), who)
    ensures BlockingAt(p, s, i, ReviewerAt(s, i))
  {
    var s' := With(s, k, c);
    WithAt(s, k, c);
    forall j: nat | i < j && IsBy(s, j, ReviewerAt(s, i)) ensures !Clears(p, s, j) {
      SameReviewers(s, k, c, i, j);
      assert IsBy(s', Moved(k, j), who) && !Clears(p, s', Moved(k, j));
    }
  }

  lemma PassiveKeepsBlocking(p: Provider, s: seq<Review>, k: nat, c: Review)
    requires k <= |s| && IsPassive(p, c)
    ensures AnyBlocks(p, s) <==> AnyBlocks(p, With(s, k, c))
  {
    var s' := With(s, k, c);
    WithAt(s, k, c);
    if AnyBlocks(p, s) {
      var who :| Blocks(p, s, who);
      var i: nat :| BlockingAt(p, s, i, who);
      PassiveKeepsBlock(p, s, k, c, i, who);
      assert Blocks(p, s', ReviewerAt(s', Moved(k, i)));
    }
    if AnyBlocks(p, s') {
      var who :| Blocks(p, s', who);
      var i': nat :| BlockingAt(p, s', i', who);
      assert i' != k;
      var i := MovedBack(k, i');
      PassiveAddsNoBlock(p, s, k, c, i, who);
      assert Blocks(p, s, ReviewerAt(s, i));
    }
  }

  lemma VerdictBlocks(p: Provider, s: seq<Review>)
    ensures Verdict(p, s) == ChangesRequested <==> AnyBlocks(p, s)
  {
  }

  /** Adding a comment, anywhere and at any time, neither lifts nor imposes a block. */
  lemma CommentsNeverBlockOrUnblock(p: Provider, reviews: seq<Review>, i: nat, c: Review)
    requires i <= |reviews| && IsPassive(p, c)
    ensures Verdict(p, Sort(With(reviews, i, c))) == ChangesRequested <==> Verdict(p, Sort(reviews)) == ChangesRequested
  {
    var before, after := Sort(reviews), Sort(With(reviews, i, c));
    WithIsOneMore(reviews, i, c);
    SortOneMore(reviews, With(reviews, i, c), c);
    var k := OneMoreIsWith(before, after, c);
    PassiveKeepsBlocking(p, before, k, c);
    VerdictBlocks(p, before);
    VerdictBlocks(p, after);
  }

  // ---------- Gitea and GitHub ----------

  /** Exchange the words the providers use differently. */
  function Renamed(state: string): string {
    if state == GITHUB.changesRequested then GITEA.changesRequested
    else if state == GITEA.changesRequested then GITHUB.changesRequested
    else if state == GITHUB.commented then GITEA.commented
    else if state == GITEA.commented then GITHUB.commented
    else state
  }

  function RenamedReview(r: Review): Review {
    r.(state := Renamed(r.state))
  }

  function RenamedAll(rs: seq<Review>): seq<Review> {
    seq(|rs|, i requires 0 <= i < |rs| => RenamedReview(rs[i]))
  }

  lemma SameKind(state: string)
    ensures KindOf(GITEA, Renamed(state)) == KindOf(GITHUB, state)
  {
    assert "APPROVED"[0] == 'A' && "DISMISSED"[0] == 'D';
    assert GITHUB.changesRequested[0] == 'C' && GITHUB.changesRequested[1] == 'H';
    assert GITHUB.commented[1] == 'O' && GITEA.commented[1] == 'O' && |GITHUB.commented| != |GITEA.commented|;
    assert GITEA.changesRequested[0] == 'R';
  }

  lemma {:induction false} InsertRenamed(rs: seq<Review>, r: Review)
    ensures Insert(RenamedAll(rs), RenamedReview(r)) == RenamedAll(Insert(rs, r))
  {
    var last := |rs| - 1;
    if rs == [] {
    } else if TimeOf(rs[last]) <= TimeOf(r) {
      assert RenamedAll(rs + [r]) == RenamedAll(rs) + [RenamedReview(r)];
    } else {
      InsertRenamed(rs[..last], r);
      assert RenamedAll(rs)[..last] == RenamedAll(rs[..last]);
      var front := Insert(rs[..last], r);
      assert RenamedAll(front + [rs[last]]) == RenamedAll(front) + [RenamedReview(rs[last])];
    }
  }

  lemma {:induction false} SortRenamed(rs: seq<Review>)
    ensures Sort(RenamedAll(rs)) == RenamedAll(Sort(rs))
  {
    if rs != [] {
      SortRenamed(rs[..|rs| - 1]);
      assert RenamedAll(rs)[..|rs| - 1] == RenamedAll(rs[..|rs| - 1]);
      InsertRenamed(Sort(rs[..|rs| - 1]), rs[|rs| - 1]);
    }
  }

  /** Gitea's derivation is GitHub's on renamed words. */
  lemma ProvidersAgree(reviews: seq<Review>)
    ensures Verdict(GITEA, Sort(RenamedAll(reviews))) == Verdict(GITHUB, Sort(reviews))
  {
    SortRenamed(reviews);
    var s, t := Sort(reviews), RenamedAll(Sort(reviews));
    forall i: nat | i < |s| ensures KindOf(GITEA, t[i].state) == KindOf(GITHUB, s[i].state) {
      SameKind(s[i].state);
    }
    assert Alike(GITHUB, s, GITEA, t) && Alike(GITEA, t, GITHUB, s);
    VerdictsAgree(GITHUB, s, GITEA, t);
  }

  lemma VerdictsAgree(p: Provider, s: seq<Review>, q: Provider, t: seq<Review>)
    requires Alike(p, s, q, t) && Alike(q, t, p, s)
    ensures Verdict(p, s) == Verdict(q, t)
  {
    forall who ensures Blocks(p, s, who) <==> Blocks(q, t, who) {
      if Blocks(p, s, who) {
        BlocksAgree(p, s, q, t, who);
      }
      if Blocks(q, t, who) {
        BlocksAgree(q, t, p, s, who);
      }
    }
    forall who ensures LatestIs(p, s, who, Approval) <==> LatestIs(q, t, who, Approval) {
      if LatestIs(p, s, who, Approval) {
        LatestAgree(p, s, q, t, who, Approval);
      }
      if LatestIs(q, t, who, Approval) {
        LatestAgree(q, t, p, s, who, Approval);
      }
    }
  }

  ghost predicate Alike(p: Provider, s: seq<Review>, q: Provider, t: seq<Review>) {
    |s| == |t| && forall i: nat | i < |s| ::
      KindOf(q, t[i].state) == KindOf(p, s[i].state) && ReviewerAt(t, i) == ReviewerAt(s, i)
  }

  lemma BlocksAgree(p: Provider, s: seq<Review>, q: Provider, t: seq<Review>, who: Reviewer)
    requires Alike(p, s, q, t) && Blocks(p, s, who)
    ensures Blocks(q, t, who)
  {
    var i: nat :| BlockingAt(p, s, i, who);
    assert forall j: nat | i < j && IsBy(t, j, who) :: IsBy(s, j, who) && !Clears(p, s, j);
    assert BlockingAt(q, t, i, who);
  }

  lemma LatestAgree(p: Provider, s: seq<Review>, q: Provider, t: seq<Review>, who: Reviewer, kind: Kind)
    requires Alike(p, s, q, t) && LatestIs(p, s, who, kind)
    ensures LatestIs(q, t, who, kind)
  {
    var i: nat :| IsLatest(s, i) && IsBy(s, i, who) && KindOf(p, s[i].state) == kind;
    assert IsLatest(t, i) && IsBy(t, i, who);
  }
}
