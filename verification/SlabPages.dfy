/** The page level of the slab allocator (rt-thread/src/slab.c).

    The kernel threads its free pages on one address-sorted list of runs.  Here the
    list is a sequence of runs; page numbers count from the start of the heap.
    `AllocRun` and `FreeRun` say what one pass over the list does.  The lemmas say
    what that means for the set of free pages, and that the list is a canonical form
    of that set.
 */
module SlabPages {
  import opened Wrappers

  datatype Run = Run(start: nat, count: nat)

  ghost predicate InRun(r: Run, p: int) {
    r.start <= p < r.start + r.count
  }

  /** Page p is on the free list. */
  ghost predicate Has(l: seq<Run>, p: int) {
    l != [] && (InRun(l[0], p) || Has(l[1..], p))
  }

  /** Address-sorted, disjoint, and maximal: two neighbouring runs never touch. */
  ghost predicate Canonical(l: seq<Run>) {
    l != [] ==>
      && l[0].count > 0
      && (|l| > 1 ==> l[0].start + l[0].count < l[1].start)
      && Canonical(l[1..])
  }

  ghost predicate AllFree(l: seq<Run>, s: int, n: nat) {
    forall p :: s <= p < s + n ==> Has(l, p)
  }

  ghost predicate NoneFree(l: seq<Run>, s: int, n: nat) {
    forall p :: s <= p < s + n ==> !Has(l, p)
  }

  /** One pass of the first-fit search: the pages taken and the list that remains. */
  function AllocRun(l: seq<Run>, n: nat): (Option<nat>, seq<Run>) {
    if l == [] then (None, l)
    else if l[0].count > n then (Some(l[0].start), [Run(l[0].start + n, l[0].count - n)] + l[1..])
    else if l[0].count == n then (Some(l[0].start), l[1..])
    else
      var rest := AllocRun(l[1..], n);
      (rest.0, [l[0]] + rest.1)
  }

  /** One pass of the coalescing insertion. */
  function FreeRun(l: seq<Run>, s: nat, n: nat): seq<Run> {
    if l == [] then [Run(s, n)]
    else if l[0].start + l[0].count == s then
      if |l| > 1 && l[0].start + l[0].count + n == l[1].start
      then [Run(l[0].start, l[0].count + n + l[1].count)] + l[2..]
      else [Run(l[0].start, l[0].count + n)] + l[1..]
    else if l[0].start == s + n then [Run(s, l[0].count + n)] + l[1..]
    else if l[0].start > s + n then [Run(s, n)] + l
    else [l[0]] + FreeRun(l[1..], s, n)
  }

  /** Everything after the first run of a canonical list lies strictly past its end. */
  lemma {:induction false} PastFirst(l: seq<Run>, p: int)
    requires Canonical(l) && l != [] && Has(l[1..], p)
    ensures p > l[0].start + l[0].count
  {
    if !InRun(l[1], p) {
      assert l[1..][1..] == l[2..];
      PastFirst(l[1..], p);
    }
  }

  /** Every page of a canonical list lies at or past its first run. */
  lemma {:induction false} FromFirst(l: seq<Run>, p: int)
    requires Canonical(l) && Has(l, p)
    ensures p >= l[0].start
  {
    if !InRun(l[0], p) {
      PastFirst(l, p);
    }
  }

  /** The list is determined by the set of pages it holds. */
  lemma {:induction false} CanonicalUnique(a: seq<Run>, b: seq<Run>)
    requires Canonical(a) && Canonical(b)
    requires forall p :: Has(a, p) <==> Has(b, p)
    ensures a == b
  {
    if a == [] {
      if b != [] { assert Has(b, b[0].start); }
    } else {
      assert Has(a, a[0].start);
      FromFirst(b, a[0].start);
      assert Has(b, b[0].start);
      FromFirst(a, b[0].start);
      var ea, eb := a[0].start + a[0].count, b[0].start + b[0].count;
      if ea < eb {
        assert Has(b, ea);
        PastFirst(a, ea);
      } else if eb < ea {
        assert Has(a, eb);
        PastFirst(b, eb);
      }
      forall p ensures Has(a[1..], p) <==> Has(b[1..], p) {
        if Has(a[1..], p) { PastFirst(a, p); assert Has(a, p); }
        if Has(b[1..], p) { PastFirst(b, p); assert Has(b, p); }
      }
      CanonicalUnique(a[1..], b[1..]);
      assert a == [a[0]] + a[1..] && b == [b[0]] + b[1..];
    }
  }

  lemma HasCons(r: Run, l: seq<Run>)
    ensures forall p :: Has([r] + l, p) <==> InRun(r, p) || Has(l, p)
  {
    assert ([r] + l)[1..] == l;
  }

  /** Consing a run that ends strictly before every page of l keeps the form. */
  lemma CanonicalCons(r: Run, l: seq<Run>)
    requires r.count > 0 && Canonical(l)
    requires l != [] ==> r.start + r.count < l[0].start
    ensures Canonical([r] + l)
  {
    assert ([r] + l)[1..] == l;
  }

  /** What a first-fit allocation of n pages from l is: r is the address it returns, l' the
      list it leaves. */
  ghost predicate FirstFit(l: seq<Run>, n: nat, r: Option<nat>, l': seq<Run>) {
    && Canonical(l')
    && (l' != [] ==> l != [] && l[0].start <= l'[0].start)
    && (r.None? ==> l' == l && forall s :: !AllFree(l, s, n))
    && (r.Some? ==>
          && AllFree(l, r.value, n)
          && (forall s :: AllFree(l, s, n) ==> r.value <= s)
          && (forall p :: Has(l', p) <==> Has(l, p) && !(r.value <= p < r.value + n)))
  }

  lemma FirstRunFits(l: seq<Run>, n: nat)
    requires Canonical(l) && n > 0 && l != [] && l[0].count >= n
    ensures FirstFit(l, n, AllocRun(l, n).0, AllocRun(l, n).1)
  {
    var (r, l') := AllocRun(l, n);
    forall s | AllFree(l, s, n) ensures r.value <= s {
      assert Has(l, s);
      FromFirst(l, s);
    }
    forall p | Has(l[1..], p) ensures p > l[0].start + l[0].count { PastFirst(l, p); }
    if l[0].count > n {
      var cut := Run(l[0].start + n, l[0].count - n);
      HasCons(cut, l[1..]);
      CanonicalCons(cut, l[1..]);
    }
  }

  lemma FirstRunPassed(l: seq<Run>, n: nat, r: Option<nat>, rest': seq<Run>)
    requires Canonical(l) && n > 0 && l != [] && l[0].count < n && FirstFit(l[1..], n, r, rest')
    ensures FirstFit(l, n, r, [l[0]] + rest')
  {
    var rest := l[1..];
    HasCons(l[0], rest');
    CanonicalCons(l[0], rest');
    if r.None? { assert l == [l[0]] + rest; }
    forall p | Has(rest, p) ensures p > l[0].start + l[0].count { PastFirst(l, p); }
    forall s ensures AllFree(l, s, n) <==> AllFree(rest, s, n) {
      if AllFree(l, s, n) { FitsPastFirst(l, s, n); }
      if AllFree(rest, s, n) { forall p | s <= p < s + n ensures Has(l, p) { assert Has(rest, p); } }
    }
    if r.Some? {
      assert Has(rest, r.value);
    }
  }

  /** First fit, exactly: allocation fails only when no n consecutive pages are free;
      otherwise it returns the lowest address at which n pages are free, removes just
      those pages and leaves the list canonical. */
  lemma {:induction false} AllocRunExact(l: seq<Run>, n: nat)
    requires Canonical(l) && n > 0
    ensures var (r, l') := AllocRun(l, n);
      && Canonical(l')
      && (l' != [] ==> l != [] && l[0].start <= l'[0].start)
      && (r.None? ==> l' == l && forall s :: !AllFree(l, s, n))
      && (r.Some? ==>
            && AllFree(l, r.value, n)
            && (forall s :: AllFree(l, s, n) ==> r.value <= s)
            && (forall p :: Has(l', p) <==> Has(l, p) && !(r.value <= p < r.value + n)))
  {
    if l == [] {
      forall s ensures !AllFree(l, s, n) { assert !Has(l, s); }
    } else if l[0].count >= n {
      FirstRunFits(l, n);
    } else {
      AllocRunExact(l[1..], n);
      FirstRunPassed(l, n, AllocRun(l[1..], n).0, AllocRun(l[1..], n).1);
    }
  }

  /** A search that finds nothing leaves the list as it was. */
  lemma {:induction false} AllocRunNone(l: seq<Run>, n: nat)
    ensures AllocRun(l, n).0.None? ==> AllocRun(l, n).1 == l
  {
    if l != [] { AllocRunNone(l[1..], n); }
  }

  /** n free pages in a row cannot straddle or fit a first run shorter than n. */
  lemma FitsPastFirst(l: seq<Run>, s: int, n: nat)
    requires Canonical(l) && l != [] && l[0].count < n && AllFree(l, s, n)
    ensures AllFree(l[1..], s, n)
  {
    assert Has(l, s);
    FromFirst(l, s);
    var e := l[0].start + l[0].count;
    if s < e {
      assert s <= e < s + n;
      assert Has(l, e);
      PastFirst(l, e);
    }
    forall p | s <= p < s + n ensures Has(l[1..], p) {
      assert Has(l, p);
    }
  }

  /** Freeing pages that are not on the list adds exactly those pages and keeps the
      list sorted, disjoint and coalesced. */
  lemma {:induction false} FreeRunExact(l: seq<Run>, s: nat, n: nat)
    requires Canonical(l) && n > 0 && NoneFree(l, s, n)
    ensures Canonical(FreeRun(l, s, n))
    ensures forall p :: Has(FreeRun(l, s, n), p) <==> Has(l, p) || s <= p < s + n
    ensures FreeRun(l, s, n)[0].start == if l == [] || s < l[0].start then s else l[0].start
  {
    if l == [] {
      CanonicalCons(Run(s, n), []);
      HasCons(Run(s, n), []);
      assert FreeRun(l, s, n) == [Run(s, n)] + [];
    } else {
      var b, rest := l[0], l[1..];
      forall p | Has(rest, p) ensures p > b.start + b.count { PastFirst(l, p); }
      if b.start + b.count == s {
        if |l| > 1 && s + n == l[1].start {
          assert rest[1..] == l[2..];
          var big := Run(b.start, b.count + n + l[1].count);
          CanonicalCons(big, l[2..]);
          HasCons(big, l[2..]);
        } else {
          if |l| > 1 { assert InRun(l[1], l[1].start) && Has(rest, l[1].start) && Has(l, l[1].start); }
          CanonicalCons(Run(b.start, b.count + n), rest);
          HasCons(Run(b.start, b.count + n), rest);
        }
      } else if b.start == s + n {
        CanonicalCons(Run(s, b.count + n), rest);
        HasCons(Run(s, b.count + n), rest);
      } else if b.start > s + n {
        CanonicalCons(Run(s, n), l);
        HasCons(Run(s, n), l);
      } else {
        BeforeFreed(l, s, n);
        forall p | s <= p < s + n ensures !Has(rest, p) { assert !Has(l, p); }
        FreeRunExact(rest, s, n);
        CanonicalCons(b, FreeRun(rest, s, n));
        HasCons(b, FreeRun(rest, s, n));
      }
    }
  }

  /** A run that neither touches the freed pages nor lies past them lies before them. */
  lemma BeforeFreed(l: seq<Run>, s: nat, n: nat)
    requires Canonical(l) && l != [] && n > 0 && NoneFree(l, s, n)
    requires l[0].start + l[0].count != s && l[0].start <= s + n && l[0].start != s + n
    ensures l[0].start + l[0].count < s
  {
    var b := l[0];
    if b.start + b.count > s {
      var p := if b.start > s then b.start else s;
      assert InRun(b, p) ==> Has(l, p);
    }
  }

  /** Giving back what was just taken restores the list itself, not just its pages. */
  lemma AllocFreeRestores(l: seq<Run>, n: nat)
    requires Canonical(l) && n > 0 && AllocRun(l, n).0.Some?
    ensures FreeRun(AllocRun(l, n).1, AllocRun(l, n).0.value, n) == l
  {
    var (r, l') := AllocRun(l, n);
    AllocRunExact(l, n);
    FreeRunExact(l', r.value, n);
    CanonicalUnique(FreeRun(l', r.value, n), l);
  }

  /** Two blocks may be given back in either order. */
  lemma FreeOrderIrrelevant(l: seq<Run>, s: nat, n: nat, t: nat, m: nat)
    requires Canonical(l) && n > 0 && m > 0
    requires NoneFree(l, s, n) && NoneFree(l, t, m) && (s + n <= t || t + m <= s)
    ensures FreeRun(FreeRun(l, s, n), t, m) == FreeRun(FreeRun(l, t, m), s, n)
  {
    FreeRunExact(l, s, n);
    FreeRunExact(l, t, m);
    FreeRunExact(FreeRun(l, s, n), t, m);
    FreeRunExact(FreeRun(l, t, m), s, n);
    CanonicalUnique(FreeRun(FreeRun(l, s, n), t, m), FreeRun(FreeRun(l, t, m), s, n));
  }
}
