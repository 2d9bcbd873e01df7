/** The order in which SQL compares text columns, and JavaScript sorts strings. */
module Text {
  predicate Less(a: string, b: string) {
    if b == [] then false
    else if a == [] then true
    else a[0] < b[0] || (a[0] == b[0] && Less(a[1..], b[1..]))
  }

  predicate AtMost(a: string, b: string) {
    a == b || Less(a, b)
  }

  lemma {:induction false} Irreflexive(a: string)
    ensures !Less(a, a)
  {
    if a != [] {
      Irreflexive(a[1..]);
    }
  }

  lemma {:induction false} Transitive(a: string, b: string, c: string)
    requires Less(a, b) && Less(b, c)
    ensures Less(a, c)
  {
    if a != [] && a[0] == b[0] == c[0] {
      Transitive(a[1..], b[1..], c[1..]);
    }
  }

  lemma {:induction false} Total(a: string, b: string)
    ensures Less(a, b) || a == b || Less(b, a)
  {
    if a != [] && b != [] {
      Total(a[1..], b[1..]);
      assert a == [a[0]] + a[1..] && b == [b[0]] + b[1..];
    }
  }

  /** Texts that start with equally long, different parts are ordered by these parts. */
  lemma {:induction false} LessByHead(a: string, b: string, x: string, y: string)
    requires |a| == |b| && Less(a, b)
    ensures Less(a + x, b + y)
  {
    assert (a + x)[0] == a[0] && (b + y)[0] == b[0];
    if a[0] == b[0] {
      LessByHead(a[1..], b[1..], x, y);
      assert (a + x)[1..] == a[1..] + x && (b + y)[1..] == b[1..] + y;
    }
  }

  lemma {:induction false} LessByTail(a: string, x: string, y: string)
    ensures Less(a + x, a + y) <==> Less(x, y)
  {
    if a == [] {
      assert a + x == x && a + y == y;
    } else {
      LessByTail(a[1..], x, y);
      assert (a + x)[1..] == a[1..] + x && (a + y)[1..] == a[1..] + y;
    }
  }
}
