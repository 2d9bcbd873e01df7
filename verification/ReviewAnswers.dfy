/** What `deriveReviewState` answers, said on the list of reviews as it comes, of either provider. */
module ReviewAnswers {
  import opened Reviews

  /** Review `j` is later than review `i`: submitted after it, or at the same time and further on in the list. A
    * review without a submission time counts as submitted at time zero. */
  predicate IsLater(reviews: seq<Review>, i: nat, j: nat)
    requires i < |reviews| && j < |reviews|
  {
    match (reviews[i].submittedAt, reviews[j].submittedAt)
    case (Some(a), Some(b)) => a < b || (a == b && i < j)
    case (Some(a), None) => a < 0 || (a == 0 && i < j)
    case (None, Some(b)) => 0 < b || (b == 0 && i < j)
    case (None, None) => i < j
  }

  /** A review without a login is by nobody else. */
  predicate IsBySame(reviews: seq<Review>, i: nat, j: nat)
    requires i < |reviews| && j < |reviews|
  {
    i == j || (reviews[i].login.Some? && reviews[j].login == reviews[i].login)
  }

  /** Review `i` requests changes, and its author has neither approved since nor been dismissed. */
  ghost predicate StillBlocks(reviews: seq<Review>, i: nat, requested: string) {
    && i < |reviews| && reviews[i].state == requested
    && forall j: nat | j < |reviews| && IsLater(reviews, i, j) && IsBySame(reviews, i, j) ::
         reviews[j].state != "APPROVED" && reviews[j].state != "DISMISSED"
  }

  /** Review `i` approves, and its author has written none since. */
  ghost predicate LastApproves(reviews: seq<Review>, i: nat) {
    && i < |reviews| && reviews[i].state == "APPROVED"
    && forall j: nat | j < |reviews| && IsLater(reviews, i, j) :: !IsBySame(reviews, i, j)
  }

  ghost predicate IsLast(reviews: seq<Review>, i: nat) {
    i < |reviews| && forall j: nat | j < |reviews| && j != i :: IsLater(reviews, j, i)
  }

  ghost predicate Answers(reviews: seq<Review>, requested: string, commented: string, state: ReviewState) {
    if reviews == [] then state == NoReviews
    else if exists i: nat :: StillBlocks(reviews, i, requested) then state == ChangesRequested
    else if exists i: nat :: LastApproves(reviews, i) then state == Approved
    else exists i: nat :: IsLast(reviews, i) &&
           state == if reviews[i].state == commented then Commented
                    else if reviews[i].state == "DISMISSED" then Dismissed
                    else PendingReview
  }

  // ---------- the sorted list against the list ----------

  lemma LaterIsTime(reviews: seq<Review>, i: nat, j: nat)
    requires i < |reviews| && j < |reviews|
    ensures IsLater(reviews, i, j) <==>
            TimeOf(reviews[i]) < TimeOf(reviews[j]) || (TimeOf(reviews[i]) == TimeOf(reviews[j]) && i < j)
  {
  }

  /** `sorted[k]` is review `order[k]` of the list. */
  ghost predicate IsOrder(reviews: seq<Review>, n: nat, sorted: seq<Review>, order: seq<nat>)
    requires n <= |reviews|
  {
    && |order| == |sorted|
    && (forall k | 0 <= k < |order| :: order[k] < n && sorted[k] == reviews[order[k]])
    && forall k, m | 0 <= k < m < |order| :: IsLater(reviews, order[k], order[m])
  }

  lemma AppendLatest(reviews: seq<Review>, n: nat, sorted: seq<Review>, order: seq<nat>, x: nat)
    requires n < |reviews| && IsOrder(reviews, n + 1, sorted, order) && x <= n
    requires forall k | 0 <= k < |order| :: IsLater(reviews, order[k], x)
    ensures IsOrder(reviews, n + 1, sorted + [reviews[x]], order + [x])
  {
  }

  lemma LaterThanLast(reviews: seq<Review>, n: nat, sorted: seq<Review>, order: seq<nat>)
    requires n < |reviews| && IsOrder(reviews, n, sorted, order) && sorted != []
    requires TimeOf(sorted[|sorted| - 1]) <= TimeOf(reviews[n])
    ensures forall k | 0 <= k < |order| :: IsLater(reviews, order[k], n)
  {
    var last := |sorted| - 1;
    forall k | 0 <= k <= last ensures IsLater(reviews, order[k], n) {
      LaterIsTime(reviews, order[k], n);
      LaterIsTime(reviews, order[k], order[last]);
    }
  }

  lemma {:induction false} InsertOrder(reviews: seq<Review>, n: nat, sorted: seq<Review>, order: seq<nat>) returns (next: seq<nat>)
    requires n < |reviews| && IsOrder(reviews, n, sorted, order)
    ensures IsOrder(reviews, n + 1, Insert(sorted, reviews[n]), next)
    ensures forall i: nat :: i in next <==> i in order || i == n
    decreases |sorted|
  {
    if sorted == [] {
      next := [n];
      return;
    }
    var last := |sorted| - 1;
    if TimeOf(sorted[last]) <= TimeOf(reviews[n]) {
      LaterThanLast(reviews, n, sorted, order);
      AppendLatest(reviews, n, sorted, order, n);
      next := order + [n];
    } else {
      var front := InsertOrder(reviews, n, sorted[..last], order[..last]);
      assert order == order[..last] + [order[last]];
      LaterIsTime(reviews, n, order[last]);
      forall k | 0 <= k < |front| ensures IsLater(reviews, front[k], order[last]) {
        assert front[k] in front;
      }
      AppendLatest(reviews, n, Insert(sorted[..last], reviews[n]), front, order[last]);
      next := front + [order[last]];
    }
  }

  lemma {:induction false} SortOrder(reviews: seq<Review>, n: nat) returns (order: seq<nat>)
    requires n <= |reviews|
    ensures IsOrder(reviews, n, Sort(reviews[..n]), order)
    ensures forall i: nat :: i in order <==> i < n
  {
    if n == 0 {
      order := [];
    } else {
      var front := SortOrder(reviews, n - 1);
      assert reviews[..n][..n - 1] == reviews[..n - 1];
      assert IsOrder(reviews, n - 1, Sort(reviews[..n - 1]), front);
      order := InsertOrder(reviews, n - 1, Sort(reviews[..n - 1]), front);
    }
  }

  /** In that order, later means further on, and an author is a reviewer of the sorted list. */
  lemma OrderAgrees(reviews: seq<Review>, sorted: seq<Review>, order: seq<nat>, k: nat, m: nat)
    requires IsOrder(reviews, |reviews|, sorted, order) && k < |order| && m < |order|
    ensures IsLater(reviews, order[k], order[m]) <==> k < m
    ensures IsBySame(reviews, order[k], order[m]) <==> ReviewerAt(sorted, k) == ReviewerAt(sorted, m)
  {
    LaterIsTime(reviews, order[k], order[m]);
    LaterIsTime(reviews, order[m], order[k]);
  }

  /** The words of a provider differ from each other and from the common ones. */
  predicate Proper(p: Provider) {
    && p.changesRequested != p.commented
    && p.changesRequested != "APPROVED" && p.changesRequested != "DISMISSED"
    && p.commented != "APPROVED" && p.commented != "DISMISSED"
  }

  lemma BlocksInList(p: Provider, reviews: seq<Review>, sorted: seq<Review>, order: seq<nat>, k: nat)
    requires Proper(p) && IsOrder(reviews, |reviews|, sorted, order) && (forall i: nat :: i in order <==> i < |reviews|)
    requires k < |sorted|
    ensures BlockingAt(p, sorted, k, ReviewerAt(sorted, k)) <==> StillBlocks(reviews, order[k], p.changesRequested)
  {
    var who := ReviewerAt(sorted, k);
    assert "APPROVED"[0] != "DISMISSED"[0];
    if BlockingAt(p, sorted, k, who) {
      forall j: nat | j < |reviews| && IsLater(reviews, order[k], j) && IsBySame(reviews, order[k], j)
        ensures reviews[j].state != "APPROVED" && reviews[j].state != "DISMISSED"
      {
        assert j in order;
        var m :| 0 <= m < |order| && order[m] == j;
        OrderAgrees(reviews, sorted, order, k, m);
        assert IsBy(sorted, m, who) && !Clears(p, sorted, m);
      }
    }
    if StillBlocks(reviews, order[k], p.changesRequested) {
      forall m: nat | k < m && IsBy(sorted, m, who) ensures !Clears(p, sorted, m) {
        OrderAgrees(reviews, sorted, order, k, m);
        assert reviews[order[m]].state != "APPROVED";
      }
    }
  }

  lemma ApprovesInList(p: Provider, reviews: seq<Review>, sorted: seq<Review>, order: seq<nat>, k: nat)
    requires Proper(p) && IsOrder(reviews, |reviews|, sorted, order) && (forall i: nat :: i in order <==> i < |reviews|)
    requires k < |sorted|
    ensures IsLatest(sorted, k) && KindOf(p, sorted[k].state) == Approval <==> LastApproves(reviews, order[k])
  {
    if IsLatest(sorted, k) {
      forall j: nat | j < |reviews| && IsLater(reviews, order[k], j) ensures !IsBySame(reviews, order[k], j) {
        assert j in order;
        var m :| 0 <= m < |order| && order[m] == j;
        OrderAgrees(reviews, sorted, order, k, m);
      }
    }
    if LastApproves(reviews, order[k]) {
      forall m: nat | k < m < |sorted| ensures ReviewerAt(sorted, m) != ReviewerAt(sorted, k) {
        OrderAgrees(reviews, sorted, order, k, m);
      }
    }
  }

  /** The existence tests of the verdict are those of the answer. */
  lemma AnyBlocksInList(p: Provider, reviews: seq<Review>, sorted: seq<Review>, order: seq<nat>)
    requires Proper(p) && IsOrder(reviews, |reviews|, sorted, order) && (forall i: nat :: i in order <==> i < |reviews|)
    ensures AnyBlocks(p, sorted) <==> exists i: nat :: StillBlocks(reviews, i, p.changesRequested)
  {
    if who :| Blocks(p, sorted, who) {
      var k: nat :| BlockingAt(p, sorted, k, who);
      BlocksInList(p, reviews, sorted, order, k);
    }
    if i: nat :| StillBlocks(reviews, i, p.changesRequested) {
      assert i in order;
      var k :| 0 <= k < |order| && order[k] == i;
      BlocksInList(p, reviews, sorted, order, k);
      assert Blocks(p, sorted, ReviewerAt(sorted, k));
    }
  }

  lemma AnyApprovesInList(p: Provider, reviews: seq<Review>, sorted: seq<Review>, order: seq<nat>)
    requires Proper(p) && IsOrder(reviews, |reviews|, sorted, order) && (forall i: nat :: i in order <==> i < |reviews|)
    ensures (exists who :: LatestIs(p, sorted, who, Approval)) <==> exists i: nat :: LastApproves(reviews, i)
  {
    if who :| LatestIs(p, sorted, who, Approval) {
      var k: nat :| IsLatest(sorted, k) && IsBy(sorted, k, who) && KindOf(p, sorted[k].state) == Approval;
      ApprovesInList(p, reviews, sorted, order, k);
    }
    if i: nat :| LastApproves(reviews, i) {
      assert i in order;
      var k :| 0 <= k < |order| && order[k] == i;
      ApprovesInList(p, reviews, sorted, order, k);
      assert IsBy(sorted, k, ReviewerAt(sorted, k));
      assert LatestIs(p, sorted, ReviewerAt(sorted, k), Approval);
    }
  }

  lemma LastInList(reviews: seq<Review>, sorted: seq<Review>, order: seq<nat>)
    requires IsOrder(reviews, |reviews|, sorted, order) && (forall i: nat :: i in order <==> i < |reviews|)
    requires sorted != []
    ensures IsLast(reviews, order[|order| - 1])
  {
    var i := order[|order| - 1];
    forall j: nat | j < |reviews| && j != i ensures IsLater(reviews, j, i) {
      assert j in order;
      var m :| 0 <= m < |order| && order[m] == j;
    }
  }

  /** The verdict on the sorted list is the answer on the list. */
  lemma VerdictAnswers(p: Provider, reviews: seq<Review>)
    requires Proper(p)
    ensures Answers(reviews, p.changesRequested, p.commented, Verdict(p, Sort(reviews)))
  {
    var sorted := Sort(reviews);
    assert reviews[..|reviews|] == reviews;
    var order := SortOrder(reviews, |reviews|);
    AnyBlocksInList(p, reviews, sorted, order);
    AnyApprovesInList(p, reviews, sorted, order);
    if reviews != [] {
      LastInList(reviews, sorted, order);
      assert "APPROVED"[0] != "DISMISSED"[0];
    }
  }

  /** The answer is the only one. */
  lemma AnswersAreUnique(reviews: seq<Review>, requested: string, commented: string, a: ReviewState, b: ReviewState)
    requires Answers(reviews, requested, commented, a) && Answers(reviews, requested, commented, b)
    ensures a == b
  {
    forall i: nat, j: nat | IsLast(reviews, i) && IsLast(reviews, j) ensures i == j {
      if i != j {
        LaterIsTime(reviews, i, j);
        LaterIsTime(reviews, j, i);
      }
    }
  }

  // ---------- the two providers ----------

  method DeriveGitHubReviewState(reviews: seq<Review>) returns (state: ReviewState)
    ensures Answers(reviews, "CHANGES_REQUESTED", "COMMENTED", state)
  {
    assert "CHANGES_REQUESTED"[1] == 'H' && "COMMENTED"[1] == 'O';
    assert "APPROVED"[0] == 'A' && "DISMISSED"[0] == 'D';
    VerdictAnswers(GITHUB, reviews);
    state := DeriveReviewState(GITHUB, reviews);
  }

  method DeriveGiteaReviewState(reviews: seq<Review>) returns (state: ReviewState)
    ensures Answers(reviews, "REQUEST_CHANGES", "COMMENT", state)
  {
    assert "REQUEST_CHANGES"[0] == 'R' && "COMMENT"[0] == 'C';
    assert "APPROVED"[0] == 'A' && "DISMISSED"[0] == 'D';
    VerdictAnswers(GITEA, reviews);
    state := DeriveReviewState(GITEA, reviews);
  }
}
