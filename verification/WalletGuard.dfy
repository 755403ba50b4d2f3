/** Threshold authorization (pkg/walletguard/guard.go): distinct factors with a verifying assertion. */
module WalletGuard {

  type Factor = string
  datatype Assertion = Assertion(factor: Factor, payload: string)
  datatype SpendIntent = SpendIntent(walletId: string, amount: nat, assetId: string)
  type Verifier = (SpendIntent, Assertion) -> bool

  datatype Decision = Approved | InsufficientFactors | InvalidIntent

  predicate Verifies(verifiers: map<Factor, Verifier>, intent: SpendIntent, a: Assertion) {
    a.factor in verifiers && verifiers[a.factor](intent, a)
  }

  function Factors(assertions: seq<Assertion>): set<Factor> {
    set i | 0 <= i < |assertions| :: assertions[i].factor
  }

  /** The factors whose first assertion verifies. */
  function ApprovedFactors(verifiers: map<Factor, Verifier>, intent: SpendIntent,
                           assertions: seq<Assertion>): set<Factor> {
    set i | 0 <= i < |assertions| && assertions[i].factor !in Factors(assertions[..i])
            && Verifies(verifiers, intent, assertions[i]) :: assertions[i].factor
  }

  predicate IsIntent(intent: SpendIntent) {
    intent.walletId != "" && intent.assetId != "" && intent.amount != 0
  }

  class Guard {
    const threshold: int
    const verifiers: map<Factor, Verifier>

    constructor (threshold: int, verifiers: map<Factor, Verifier>)
      requires threshold >= 1
      ensures this.threshold == threshold && this.verifiers == verifiers
    {
      this.threshold, this.verifiers := threshold, verifiers;
    }

    method Approval(intent: SpendIntent, assertions: seq<Assertion>) returns (d: Decision)
      ensures d ==
                if |ApprovedFactors(verifiers, intent, assertions)| < threshold then InsufficientFactors else Approved
    {
      var approved, seen: set<Factor> := 0, {};
      for i := 0 to |assertions|
        invariant seen == Factors(assertions[..i])
        invariant approved == |ApprovedFactors(verifiers, intent, assertions[..i])|
      {
        var assertion := assertions[i];
        OneMore(verifiers, intent, assertions[..i], assertion);
        assert assertions[..i] + [assertion] == assertions[..i + 1];
        if assertion.factor in seen {
          continue;
        }
        seen := seen + {assertion.factor};
        if assertion.factor !in verifiers {
          continue;
        }
        if verifiers[assertion.factor](intent, assertion) {
          approved := approved + 1;
        }
      }
      assert assertions[..|assertions|] == assertions;
      if approved < threshold {
        return InsufficientFactors;
      }
      return Approved;
    }

    method Authorize(intent: SpendIntent, assertions: seq<Assertion>) returns (d: Decision)
      ensures d == if !IsIntent(intent) then InvalidIntent
                   else if |ApprovedFactors(verifiers, intent, assertions)| < threshold then InsufficientFactors
                     else Approved
      ensures d.InvalidIntent? <==> intent.walletId == "" || intent.amount == 0 || intent.assetId == ""
    {
      if intent.walletId == "" || intent.assetId == "" || intent.amount == 0 {
        return InvalidIntent;
      }
      d := Approval(intent, assertions);
    }

    /** Recovery: both lists have to be approved on their own. */
    method AuthorizeRecovery(intent: SpendIntent, recovery: seq<Assertion>, replacement: seq<Assertion>)
      returns (d: Decision)
      ensures d.Approved? <==> IsIntent(intent) && |ApprovedFactors(verifiers, intent, recovery)| >= threshold
                               && |ApprovedFactors(verifiers, intent, replacement)| >= threshold
      ensures d.InvalidIntent? <==> intent.walletId == "" || intent.amount == 0 || intent.assetId == ""
    {
      if intent.walletId == "" || intent.assetId == "" || intent.amount == 0 {
        return InvalidIntent;
      }
      d := Approval(intent, recovery);
      if d.Approved? {
        d := Approval(intent, replacement);
      }
    }
  }

  lemma FactorsOneMore(assertions: seq<Assertion>, a: Assertion)
    ensures Factors(assertions + [a]) == Factors(assertions) + {a.factor}
  {
    var more := assertions + [a];
    assert more[|assertions|] == a;
    assert forall i :: 0 <= i < |assertions| ==> more[i] == assertions[i];
  }

  lemma OneMore(verifiers: map<Factor, Verifier>, intent: SpendIntent, assertions: seq<Assertion>, a: Assertion)
    ensures Factors(assertions + [a]) == Factors(assertions) + {a.factor}
    ensures ApprovedFactors(verifiers, intent, assertions + [a]) ==
              ApprovedFactors(verifiers, intent, assertions)
              + if a.factor !in Factors(assertions) && Verifies(verifiers, intent, a) then {a.factor} else {}
    ensures ApprovedFactors(verifiers, intent, assertions) <= Factors(assertions)
  {
    FactorsOneMore(assertions, a);
    var more, n := assertions + [a], |assertions|;
    assert forall i :: 0 <= i <= n ==> more[..i] == assertions[..i];
    assert assertions[..n] == assertions && more[n] == a;
    assert forall i :: 0 <= i < n ==> more[i] == assertions[i];
    var earlier, now := ApprovedFactors(verifiers, intent, assertions), ApprovedFactors(verifiers, intent, more);
    forall f | f in earlier ensures f in now {
      var i :| 0 <= i < n && assertions[i].factor !in Factors(assertions[..i])
          && Verifies(verifiers, intent, assertions[i])
               && assertions[i].factor == f;
      assert more[i].factor == f && more[i].factor !in Factors(more[..i]);
    }
    forall f | f in now && f !in earlier
      ensures f == a.factor && a.factor !in Factors(assertions) && Verifies(verifiers, intent, a)
    {
      var i :| 0 <= i < |more| && more[i].factor !in Factors(more[..i]) && Verifies(verifiers, intent, more[i])
          && more[i].factor == f;
    }
    if a.factor !in Factors(assertions) && Verifies(verifiers, intent, a) {
      assert more[n].factor !in Factors(more[..n]);
    }
  }

  /** Appending assertions never takes an approval back. */
  lemma {:induction false} AppendingKeeps(verifiers: map<Factor, Verifier>, intent: SpendIntent, a: seq<Assertion>,
                                          b: seq<Assertion>)
    ensures ApprovedFactors(verifiers, intent, a) <= ApprovedFactors(verifiers, intent, a + b)
    decreases |b|
  {
    if b == [] {
      assert a + b == a;
    } else {
      var init, last := b[..|b| - 1], b[|b| - 1];
      AppendingKeeps(verifiers, intent, a, init);
      assert a + b == (a + init) + [last];
      OneMore(verifiers, intent, a + init, last);
    }
  }

  /** The list without the assertions that repeat a factor. */
  function FirstOnly(assertions: seq<Assertion>): seq<Assertion> {
    if assertions == [] then []
    else
      var init, last := assertions[..|assertions| - 1], assertions[|assertions| - 1];
      if last.factor in Factors(init) then FirstOnly(init) else FirstOnly(init) + [last]
  }

  /** Repeats of a factor do not matter, whatever they carry. */
  lemma {:induction false} RepeatsDoNotMatter(verifiers: map<Factor, Verifier>, intent: SpendIntent,
                                              assertions: seq<Assertion>)
    ensures Factors(FirstOnly(assertions)) == Factors(assertions)
    ensures ApprovedFactors(verifiers, intent, FirstOnly(assertions)) == ApprovedFactors(verifiers, intent, assertions)
  {
    if assertions != [] {
      var init, last := assertions[..|assertions| - 1], assertions[|assertions| - 1];
      RepeatsDoNotMatter(verifiers, intent, init);
      assert init + [last] == assertions;
      OneMore(verifiers, intent, init, last);
      OneMore(verifiers, intent, FirstOnly(init), last);
    }
  }

  predicate OnePerFactor(assertions: seq<Assertion>) {
    forall i, j :: 0 <= i < j < |assertions| ==> assertions[i].factor != assertions[j].factor
  }

  lemma ApprovedIfVerifying(verifiers: map<Factor, Verifier>, intent: SpendIntent, assertions: seq<Assertion>,
                            f: Factor)
    requires OnePerFactor(assertions)
    ensures f in ApprovedFactors(verifiers, intent, assertions) <==>
              exists a :: a in assertions && a.factor == f && Verifies(verifiers, intent, a)
  {
    if a :| a in assertions && a.factor == f && Verifies(verifiers, intent, a) {
      var i :| 0 <= i < |assertions| && assertions[i] == a;
      assert assertions[i].factor !in Factors(assertions[..i]);
    }
  }

  /** With one assertion for each factor, the order does not matter. */
  lemma OrderDoesNotMatter(verifiers: map<Factor, Verifier>, intent: SpendIntent, a: seq<Assertion>, b: seq<Assertion>)
    requires OnePerFactor(a) && OnePerFactor(b) && forall x :: x in a <==> x in b
    ensures ApprovedFactors(verifiers, intent, a) == ApprovedFactors(verifiers, intent, b)
  {
    forall f ensures f in ApprovedFactors(verifiers, intent, a) <==> f in ApprovedFactors(verifiers, intent, b) {
      ApprovedIfVerifying(verifiers, intent, a, f);
      ApprovedIfVerifying(verifiers, intent, b, f);
    }
  }

  /** With repeats it does: an assertion put first decides for its factor and for no other. */
  lemma {:induction false} FirstDecides(verifiers: map<Factor, Verifier>, intent: SpendIntent, a: Assertion,
                                        assertions: seq<Assertion>)
    ensures ApprovedFactors(verifiers, intent, [a] + assertions) ==
              (ApprovedFactors(verifiers, intent, assertions) - {a.factor})
              + if Verifies(verifiers, intent, a) then {a.factor} else {}
    ensures Factors([a] + assertions) == Factors(assertions) + {a.factor}
  {
    if assertions == [] {
      OneMore(verifiers, intent, [], a);
      assert [] + [a] == [a] + assertions;
    } else {
      var init, last := assertions[..|assertions| - 1], assertions[|assertions| - 1];
      FirstDecides(verifiers, intent, a, init);
      OneMore(verifiers, intent, init, last);
      OneMore(verifiers, intent, [a] + init, last);
      var rest, all := ApprovedFactors(verifiers, intent, init), ApprovedFactors(verifiers, intent, [a] + init);
      var seen := Factors(init);
      var ok, more := Verifies(verifiers, intent, a), Verifies(verifiers, intent, last);
      assert all == (rest - {a.factor}) + if ok then {a.factor} else {};
      DecidesStep(rest, all, seen, a.factor, ok, last.factor, more);
      assert init + [last] == assertions && ([a] + init) + [last] == [a] + assertions;
    }
  }

  lemma DecidesStep(rest: set<Factor>, all: set<Factor>, seen: set<Factor>, x: Factor, ok: bool, y: Factor, more: bool)
    requires rest <= seen && all == (rest - {x}) + if ok then {x} else {}
    ensures all + (if y !in seen + {x} && more then {y} else {}) ==
              ((rest + if y !in seen && more then {y} else {}) - {x}) + if ok then {x} else {}
  {
  }

  lemma {:induction false} SmallerSet<T>(a: set<T>, b: set<T>)
    requires a <= b
    ensures |a| <= |b|
  {
    if a != {} {
      var x :| x in a;
      SmallerSet(a - {x}, b - {x});
    }
  }

  /** Where fewer factors than the threshold can be satisfied at all, no list is long enough. */
  lemma TooFewFactors(verifiers: map<Factor, Verifier>, intent: SpendIntent, assertions: seq<Assertion>,
                      satisfiable: set<Factor>, threshold: int)
    requires |satisfiable| < threshold
    requires forall a :: Verifies(verifiers, intent, a) ==> a.factor in satisfiable
    ensures |ApprovedFactors(verifiers, intent, assertions)| < threshold
  {
    SmallerSet(ApprovedFactors(verifiers, intent, assertions), satisfiable);
  }

  /** The factors for which some assertion verifies. */
  ghost function SatisfiableFactors(verifiers: map<Factor, Verifier>, intent: SpendIntent): set<Factor> {
    set f | f in verifiers && exists payload :: verifiers[f](intent, Assertion(f, payload))
  }

  lemma {:induction false} ListFor(verifiers: map<Factor, Verifier>, intent: SpendIntent, factors: set<Factor>)
    returns (assertions: seq<Assertion>)
    requires factors <= SatisfiableFactors(verifiers, intent)
    ensures ApprovedFactors(verifiers, intent, assertions) == Factors(assertions) == factors
    decreases factors
  {
    if factors == {} {
      assertions := [];
    } else {
      var f :| f in factors;
      var rest := ListFor(verifiers, intent, factors - {f});
      var payload :| verifiers[f](intent, Assertion(f, payload));
      OneMore(verifiers, intent, rest, Assertion(f, payload));
      assertions := rest + [Assertion(f, payload)];
    }
  }

  /** Some list of assertions is approved exactly when as many factors as the threshold can be satisfied. */
  lemma ReachableExactly(verifiers: map<Factor, Verifier>, intent: SpendIntent, threshold: int)
    ensures (exists assertions :: |ApprovedFactors(verifiers, intent, assertions)| >= threshold)
            <==> |SatisfiableFactors(verifiers, intent)| >= threshold
  {
    var all := SatisfiableFactors(verifiers, intent);
    var list := ListFor(verifiers, intent, all);
    forall assertions ensures |ApprovedFactors(verifiers, intent, assertions)| <= |all| {
      SmallerSet(ApprovedFactors(verifiers, intent, assertions), all);
    }
    assert |ApprovedFactors(verifiers, intent, list)| == |all|;
  }
}
