/** The order in which generations supersede each other: sequence first, then generation id. */
module References {
  import opened GenerationOffer

  /** Strings in the order of their characters. */
  predicate TextLess(a: string, b: string) {
    b != "" && (a == "" || a[0] < b[0] || (a[0] == b[0] && TextLess(a[1..], b[1..])))
  }

  lemma {:induction false} TextOrder(a: string, b: string, c: string)
    ensures !TextLess(a, a)
    ensures TextLess(a, b) || a == b || TextLess(b, a)
    ensures !(TextLess(a, b) && TextLess(b, a))
    ensures TextLess(a, b) && TextLess(b, c) ==> TextLess(a, c)
    decreases |a| + |b| + |c|
  {
    if a != "" {
      TextOrder(a[1..], if b == "" then "" else b[1..], if c == "" then "" else c[1..]);
      assert a == [a[0]] + a[1..];
    }
    if b != "" {
      assert b == [b[0]] + b[1..];
    }
  }

  /** One text stands in front of another exactly when it is a proper beginning of it, or has the smaller character where the
      two differ first. */
  lemma {:induction false} TextLessMeans(a: string, b: string)
    ensures TextLess(a, b) <==> exists n: nat :: n <= |a| && n < |b| && a[..n] == b[..n] && (n == |a| || a[n] < b[n])
  {
    if a != "" && b != "" {
      TextLessMeans(a[1..], b[1..]);
      if n: nat :| n <= |a| && n < |b| && a[..n] == b[..n] && (n == |a| || a[n] < b[n]) && n > 0 {
        assert a[0] == a[..n][0] == b[..n][0] == b[0];
        assert a[1..][..n - 1] == a[..n][1..] == b[..n][1..] == b[1..][..n - 1];
      }
      if a[0] == b[0] && TextLess(a[1..], b[1..]) {
        var m: nat :| m <= |a[1..]| && m < |b[1..]| && a[1..][..m] == b[1..][..m] && (m == |a[1..]| || a[1..][m] < b[1..][m]);
        assert a[..m + 1] == [a[0]] + a[1..][..m] == b[..m + 1];
      }
      if a[0] < b[0] {
        assert a[..0] == b[..0];
      }
    } else if b != "" {
      assert a[..0] == b[..0];
    }
  }

  predicate Less(a: Reference, b: Reference) {
    a.sequence < b.sequence || (a.sequence == b.sequence && TextLess(a.generation, b.generation))
  }

  lemma Order(a: Reference, b: Reference, c: Reference)
    ensures !Less(a, a)
    ensures Less(a, b) || a == b || Less(b, a)
    ensures !(Less(a, b) && Less(b, a))
    ensures Less(a, b) && Less(b, c) ==> Less(a, c)
  {
    TextOrder(a.generation, b.generation, c.generation);
  }

  /** The newest of some references. */
  ghost predicate Newest(refs: seq<Reference>, r: Reference) {
    r in refs && forall x :: x in refs ==> !Less(r, x)
  }

  method SelectNewest(refs: seq<Reference>) returns (r: Reference)
    requires refs != []
    ensures Newest(refs, r)
  {
    hide Less;
    r := refs[0];
    Order(r, r, r);
    for i := 1 to |refs|
      invariant r in refs && forall j :: 0 <= j < i ==> !Less(r, refs[j])
    {
      Order(r, refs[i], refs[i]);
      if Less(r, refs[i]) {
        forall j | 0 <= j < i
          ensures !Less(refs[i], refs[j])
        {
          Order(refs[j], r, refs[i]);
          Order(r, refs[j], refs[i]);
          Order(refs[i], refs[j], r);
        }
        Order(refs[i], refs[i], refs[i]);
        r := refs[i];
      }
    }
  }
}
