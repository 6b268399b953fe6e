/** Netting of same-day cash flows before the XIRR solver runs. Dates are day ordinals. */
module XirrFlows {
  import opened RealArithmetic
  import opened Polynomials
  import opened ExponentialTerms

  datatype Flow = Flow(amount: real, date: nat)

  function NetAmount(flows: seq<Flow>, d: nat): real {
    if flows == [] then 0.0
    else (if flows[0].date == d then flows[0].amount else 0.0) + NetAmount(flows[1..], d)
  }

  function Total(flows: seq<Flow>): real {
    if flows == [] then 0.0 else flows[0].amount + Total(flows[1..])
  }

  /** Value of the flows at day 0, for the discount factor y of one day. */
  function PresentValue(flows: seq<Flow>, y: real): real {
    if flows == [] then 0.0 else flows[0].amount * Pow(y, flows[0].date) + PresentValue(flows[1..], y)
  }

  predicate Netted(flows: seq<Flow>) {
    && (forall i :: 0 <= i < |flows| ==> flows[i].amount != 0.0)
    && (forall i, j :: 0 <= i < j < |flows| ==> flows[i].date < flows[j].date)
  }

  ghost predicate SameNetAmounts(a: seq<Flow>, b: seq<Flow>) {
    forall d :: NetAmount(a, d) == NetAmount(b, d)
  }

  lemma {:induction false} NetAmountAppend(flows: seq<Flow>, f: Flow, d: nat)
    ensures NetAmount(flows + [f], d) == NetAmount(flows, d) + if f.date == d then f.amount else 0.0
  {
    if flows != [] {
      NetAmountAppend(flows[1..], f, d);
      assert (flows + [f])[1..] == flows[1..] + [f];
    } else {
      assert flows + [f] == [f] && [f][1..] == [];
    }
  }

  lemma {:induction false} MinExists(s: set<nat>) returns (m: nat)
    requires s != {}
    ensures m in s && forall d :: d in s ==> m <= d
  {
    m :| m in s;
    if s != {m} {
      var n := MinExists(s - {m});
      forall d | d in s ensures m <= d || n <= d {
        if d != m {
          assert d in s - {m};
        }
      }
      m := if m < n then m else n;
    }
  }

  function AmountOn(byDate: map<nat, real>, d: nat): real {
    if d in byDate then byDate[d] else 0.0
  }

  method NetAmountsByDate(flows: seq<Flow>) returns (byDate: map<nat, real>)
    ensures forall d :: AmountOn(byDate, d) == NetAmount(flows, d)
  {
    byDate := map[];
    for i := 0 to |flows|
      invariant forall d :: AmountOn(byDate, d) == NetAmount(flows[..i], d)
    {
      var f := flows[i];
      assert flows[..i + 1] == flows[..i] + [f];
      forall d { NetAmountAppend(flows[..i], f, d); }
      byDate := byDate[f.date := AmountOn(byDate, f.date) + f.amount];
    }
    assert flows[..|flows|] == flows;
  }

  method SortedDates(dates: set<nat>) returns (sorted: seq<nat>)
    ensures forall d :: d in sorted <==> d in dates
    ensures forall i, j :: 0 <= i < j < |sorted| ==> sorted[i] < sorted[j]
  {
    sorted := [];
    var pending := dates;
    while pending != {}
      invariant pending <= dates
      invariant forall d :: d in sorted <==> d in dates - pending
      invariant forall i, j :: 0 <= i < j < |sorted| ==> sorted[i] < sorted[j]
      invariant forall i, e :: 0 <= i < |sorted| && e in pending ==> sorted[i] < e
      decreases |pending|
    {
      ghost var least := MinExists(pending);
      var next :| next in pending && forall d :: d in pending ==> next <= d;
      sorted := sorted + [next];
      pending := pending - {next};
    }
  }

  method NetSameDayFlows(flows: seq<Flow>) returns (netted: seq<Flow>)
    ensures Netted(netted) && SameNetAmounts(netted, flows)
  {
    var byDate := NetAmountsByDate(flows);
    var dates := SortedDates(byDate.Keys);
    netted := [];
    for k := 0 to |dates|
      invariant Netted(netted)
      invariant forall i, j :: 0 <= i < |netted| && k <= j < |dates| ==> netted[i].date < dates[j]
      invariant forall d :: NetAmount(netted, d) == if d in dates[..k] then AmountOn(byDate, d) else 0.0
    {
      var amount := byDate[dates[k]];
      assert dates[..k + 1] == dates[..k] + [dates[k]];
      if amount != 0.0 {
        forall d { NetAmountAppend(netted, Flow(amount, dates[k]), d); }
        netted := netted + [Flow(amount, dates[k])];
      }
    }
    assert dates[..|dates|] == dates;
    forall d ensures NetAmount(netted, d) == NetAmount(flows, d) {
      assert AmountOn(byDate, d) == NetAmount(flows, d);
    }
  }

  // ---------------------------------------------------------------- netting preserves meaning

  function Without(flows: seq<Flow>, d: nat): (r: seq<Flow>)
    ensures |r| <= |flows|
  {
    if flows == [] then []
    else if flows[0].date == d then Without(flows[1..], d)
    else [flows[0]] + Without(flows[1..], d)
  }

  lemma {:induction false} WithoutShrinks(flows: seq<Flow>)
    requires flows != []
    ensures |Without(flows, flows[0].date)| < |flows|
  {
  }

  lemma {:induction false} WithoutNet(flows: seq<Flow>, d: nat, e: nat)
    ensures NetAmount(Without(flows, d), e) == if e == d then 0.0 else NetAmount(flows, e)
  {
    if flows != [] {
      WithoutNet(flows[1..], d, e);
      if flows[0].date != d {
        assert Without(flows, d)[1..] == Without(flows[1..], d);
      }
    }
  }

  lemma {:induction false} SplitTotal(flows: seq<Flow>, d: nat)
    ensures Total(flows) == NetAmount(flows, d) + Total(Without(flows, d))
  {
    if flows != [] {
      SplitTotal(flows[1..], d);
      if flows[0].date != d {
        assert Without(flows, d)[1..] == Without(flows[1..], d);
      }
    }
  }

  lemma {:induction false} SplitValue(flows: seq<Flow>, d: nat, y: real)
    ensures PresentValue(flows, y) == NetAmount(flows, d) * Pow(y, d) + PresentValue(Without(flows, d), y)
  {
    hide Pow, PresentValue;
    EmptyValue(y);
    if flows != [] {
      var rest, kept := flows[1..], Without(flows, d);
      PresentValueUnfolded(flows, y);
      SplitValue(rest, d, y);
      if flows[0].date != d {
        assert kept[1..] == Without(rest, d);
        PresentValueUnfolded(kept, y);
      } else {
        Distribute(flows[0].amount, NetAmount(rest, d), Pow(y, d), NetAmount(flows, d));
      }
    } else {
      assert Without(flows, d) == flows;
    }
  }

  lemma {:induction false} Distribute(a: real, b: real, c: real, s: real)
    requires s == a + b
    ensures s * c == a * c + b * c
  {
  }

  /** Present value at every rate, and the total, depend on the net amounts per date only. */
  lemma {:induction false} ValueFromNetAmounts(a: seq<Flow>, b: seq<Flow>, y: real)
    requires SameNetAmounts(a, b)
    ensures PresentValue(a, y) == PresentValue(b, y)
    ensures Total(a) == Total(b)
    decreases |a| + |b|
  {
    hide PresentValue, Total, Pow;
    if a == [] && b == [] {
      EmptyValue(y);
    } else {
      var d := if a != [] then a[0].date else b[0].date;
      assert NetAmount(a, d) == NetAmount(b, d);
      SplitValue(a, d, y);
      SplitValue(b, d, y);
      SplitTotal(a, d);
      SplitTotal(b, d);
      forall e ensures NetAmount(Without(a, d), e) == NetAmount(Without(b, d), e) {
        WithoutNet(a, d, e);
        WithoutNet(b, d, e);
      }
      if a != [] { WithoutShrinks(a); } else { WithoutShrinks(b); }
      ValueFromNetAmounts(Without(a, d), Without(b, d), y);
    }
  }

  lemma {:induction false} NetAmountBefore(flows: seq<Flow>, d: nat)
    requires forall i :: 0 <= i < |flows| ==> d < flows[i].date
    ensures NetAmount(flows, d) == 0.0
  {
    if flows != [] {
      NetAmountBefore(flows[1..], d);
    }
  }

  /** A netted list is determined by its net amounts, so every input order nets to the same list. */
  lemma {:induction false} NettedUnique(a: seq<Flow>, b: seq<Flow>)
    requires Netted(a) && Netted(b) && SameNetAmounts(a, b)
    ensures a == b
    decreases |a| + |b|
  {
    if a != [] || b != [] {
      var d := if a != [] && (b == [] || a[0].date <= b[0].date) then a[0].date else b[0].date;
      assert NetAmount(a, d) == NetAmount(b, d);
      if a != [] { NetAmountBefore(a[1..], a[0].date); }
      if b != [] { NetAmountBefore(b[1..], b[0].date); }
      if a == [] || a[0].date != d {
        NetAmountBefore(a, d);
        assert false;
      }
      if b == [] || b[0].date != d {
        NetAmountBefore(b, d);
        assert false;
      }
      assert a[0] == b[0];
      forall e ensures NetAmount(a[1..], e) == NetAmount(b[1..], e) {
        assert NetAmount(a, e) == NetAmount(b, e);
      }
      NettedUnique(a[1..], b[1..]);
      assert a == [a[0]] + a[1..] && b == [b[0]] + b[1..];
    }
  }

  lemma {:induction false} NetAmountRemove(flows: seq<Flow>, i: nat, d: nat)
    requires i < |flows|
    ensures NetAmount(flows, d)
         == NetAmount(flows[..i] + flows[i + 1..], d) + if flows[i].date == d then flows[i].amount else 0.0
  {
    if i == 0 {
      assert flows[..0] + flows[1..] == flows[1..];
    } else {
      NetAmountRemove(flows[1..], i - 1, d);
      assert flows[1..][..i - 1] + flows[1..][i..] == (flows[..i] + flows[i + 1..])[1..];
    }
  }

  lemma {:induction false} NetAmountOfPermutation(a: seq<Flow>, b: seq<Flow>, d: nat)
    requires multiset(a) == multiset(b)
    ensures NetAmount(a, d) == NetAmount(b, d)
    decreases |a|
  {
    if a == [] {
      assert |multiset(b)| == 0;
    } else {
      var i := MatchedIndex(a, b);
      NetAmountRemove(b, i, d);
      NetAmountOfPermutation(a[1..], b[..i] + b[i + 1..], d);
    }
  }

  lemma {:induction false} MatchedIndex(a: seq<Flow>, b: seq<Flow>) returns (i: nat)
    requires a != [] && multiset(a) == multiset(b)
    ensures i < |b| && b[i] == a[0] && multiset(a[1..]) == multiset(b[..i] + b[i + 1..])
  {
    assert a[0] in multiset(b);
    i :| 0 <= i < |b| && b[i] == a[0];
    assert a == [a[0]] + a[1..];
    assert multiset(a[1..]) == multiset(a) - multiset{a[0]};
    WithoutIndex(b, i);
  }

  lemma {:induction false} WithoutIndex(b: seq<Flow>, i: nat)
    requires i < |b|
    ensures multiset(b[..i] + b[i + 1..]) == multiset(b) - multiset{b[i]}
  {
    var head, tail := b[..i], b[i + 1..];
    assert b == head + [b[i]] + tail;
  }

  /** Reordering the input changes nothing in any netted result. */
  lemma {:induction false} NettingIgnoresOrder(a: seq<Flow>, b: seq<Flow>, nettedA: seq<Flow>, nettedB: seq<Flow>)
    requires multiset(a) == multiset(b)
    requires Netted(nettedA) && SameNetAmounts(nettedA, a)
    requires Netted(nettedB) && SameNetAmounts(nettedB, b)
    ensures nettedA == nettedB
  {
    forall d ensures NetAmount(nettedA, d) == NetAmount(nettedB, d) {
      NetAmountOfPermutation(a, b, d);
    }
    NettedUnique(nettedA, nettedB);
  }

  // ---------------------------------------------------------------- solver terms

  /** Flows as solver terms: days elapsed since the anchor, the first netted date. */
  function ElapsedTerms(flows: seq<Flow>, anchor: nat): (ts: seq<Term>)
    requires forall f :: f in flows ==> anchor <= f.date
    ensures |ts| == |flows|
    ensures forall i :: 0 <= i < |ts| ==> ts[i] == Term(flows[i].amount, flows[i].date - anchor)
  {
    if flows == [] then [] else [Term(flows[0].amount, flows[0].date - anchor)] + ElapsedTerms(flows[1..], anchor)
  }

  lemma {:induction false} NettedTermsOrdered(flows: seq<Flow>)
    requires Netted(flows) && flows != []
    ensures forall f :: f in flows ==> flows[0].date <= f.date
    ensures Ordered(ElapsedTerms(flows, flows[0].date))
    ensures ElapsedTerms(flows, flows[0].date)[0].days == 0
  {
  }

  /** Discounting to the anchor instead of day 0 only factors out a power of y. */
  lemma {:induction false} AnchoredValue(flows: seq<Flow>, anchor: nat, y: real)
    requires forall f :: f in flows ==> anchor <= f.date
    ensures PresentValue(flows, y) == Pow(y, anchor) * EvalTerms(ElapsedTerms(flows, anchor), y)
  {
    hide PresentValue, EvalTerms, Pow;
    var ts := ElapsedTerms(flows, anchor);
    EmptyValue(y);
    EmptyValues(y);
    if flows != [] {
      PresentValueUnfolded(flows, y);
      TermsUnfolded(ts, y);
      AnchoredValue(flows[1..], anchor, y);
      assert ts[1..] == ElapsedTerms(flows[1..], anchor);
      PowAdd(y, anchor, ts[0].days);
      ShiftAlgebra(ts[0].coefficient, Pow(y, anchor), Pow(y, ts[0].days), EvalTerms(ts[1..], y), EvalTerms(ts, y));
    }
  }

  lemma {:induction false} EmptyValue(y: real)
    ensures PresentValue([], y) == 0.0 && Total([]) == 0.0
  {
  }

  lemma {:induction false} PresentValueUnfolded(flows: seq<Flow>, y: real)
    requires flows != []
    ensures PresentValue(flows, y) == flows[0].amount * Pow(y, flows[0].date) + PresentValue(flows[1..], y)
  {
  }
}
