/**
 * The standalone AS-path matching prototype: AS-path rules and test paths
 * as records, the range test `check_subset`, and `route_decision`, which
 * checks the positive ASN parts of a rule against a test path and stops
 * with a "drop" at the first mismatch.
 *
 * `route_decision` only prints and returns nothing; its outcome is modelled
 * as the branch it ends in (a `Decision`) together with the final value of
 * its `match_rule_count` counter.
 *
 * `check_subset` as written does not test range containment (the `&` on
 * its condition line binds tighter than the comparisons). It is modelled
 * as written by `CheckSubsetAsWritten`, next to the containment test the
 * code evidently intends, `CheckSubset`. `route_decision` is defined over
 * either test: the method `RouteDecision` is the program as written, and
 * every lemma about the decision holds for both tests.
 */
module AsPath {

  /** A two-element list `[min, max]`: a path length or an ASN frequency. */
  datatype Range = Range(lo: int, hi: int)

  /** `ASPathPart`: an ASN, the position it must occupy (0: anywhere) and how often it may occur. */
  datatype Part = Part(asn: int, pos: int, freq: Range)

  /** `ASPATH`: a length range and the list of ASN parts. */
  datatype AsPath = AsPath(length: Range, asns: seq<Part>)

  /** A fresh `ASPATH(length_min, length_max)` has no ASN parts. */
  function NewAsPath(lengthMin: int, lengthMax: int): (p: AsPath)
    ensures p.length.lo == lengthMin && p.length.hi == lengthMax && |p.asns| == 0
  {
    AsPath(Range(lengthMin, lengthMax), [])
  }

  // ---------------------------------------------------------------------
  // Integer bitwise AND with unbounded two's complement, as Python's `&`.

  function Abs(n: int): nat
  {
    if n < 0 then -n else n
  }

  /**
   * `a & b` on Python integers. Dividing by 2 here floors (the divisor is
   * positive), which is Python's arithmetic shift right, so negative
   * numbers behave as infinite two's complement strings.
   */
  function BitAnd(a: int, b: int): int
    decreases Abs(a) + Abs(b)
  {
    if a == 0 || b == 0 then 0
    else if a == -1 then b
    else if b == -1 then a
    else 2 * BitAnd(a / 2, b / 2) + (if a % 2 == 1 && b % 2 == 1 then 1 else 0)
  }

  /** On natural numbers the AND is a natural number no larger than either operand. */
  lemma {:induction false} BitAndBounded(a: int, b: int)
    requires 0 <= a && 0 <= b
    ensures 0 <= BitAnd(a, b) <= a && BitAnd(a, b) <= b
    decreases Abs(a) + Abs(b)
  {
    if a != 0 && b != 0 {
      BitAndBounded(a / 2, b / 2);
    }
  }

  // ---------------------------------------------------------------------
  // check_subset

  /** Whether `inner` lies within `outer`: what the range test is meant to decide. */
  predicate Within(inner: Range, outer: Range)
  {
    outer.lo <= inner.lo && inner.hi <= outer.hi
  }

  /**
   * `check_subset(list1, list2)` as written: the condition is the chained
   * comparison `list1[0] >= m <= list2[1]` with `m = list2[0] & list1[1]`.
   */
  function CheckSubsetAsWritten(list1: Range, list2: Range): (r: int)
    ensures r == 0 || r == 1
  {
    var m := BitAnd(list2.lo, list1.hi);
    if list1.lo >= m && m <= list2.hi then 1 else 0
  }

  /** The range test as evidently intended: 1 when `list1` lies within `list2`, else 0. */
  function CheckSubset(list1: Range, list2: Range): (r: int)
    ensures r == 0 || r == 1
    ensures r == 1 <==> Within(list1, list2)
  {
    if list1.lo >= list2.lo && list1.hi <= list2.hi then 1 else 0
  }

  /** The script's own call `check_subset([1,1], [0,2])` returns 1. */
  lemma ScriptCallReturnsOne()
    ensures CheckSubsetAsWritten(Range(1, 1), Range(0, 2)) == 1
    ensures CheckSubset(Range(1, 1), Range(0, 2)) == 1
  {
    assert BitAnd(0, 1) == 0;
  }

  /** On natural, non-empty ranges the test as written accepts every range that lies within the other. */
  lemma WithinPassesAsWritten(list1: Range, list2: Range)
    requires 0 <= list2.lo && list1.lo <= list1.hi
    requires Within(list1, list2)
    ensures CheckSubsetAsWritten(list1, list2) == 1
  {
    BitAndBounded(list2.lo, list1.hi);
  }

  /**
   * The test as written also accepts ranges that do not lie within the
   * other: the frequency test of the script's own `route_decision` call,
   * and a path length [0,100] against a rule length [0,5].
   */
  lemma AsWrittenAcceptsNonSubset()
    ensures !Within(Range(1, 2), Range(1, 1))
    ensures CheckSubsetAsWritten(Range(1, 2), Range(1, 1)) == 1
    ensures CheckSubset(Range(1, 2), Range(1, 1)) == 0
    ensures !Within(Range(0, 100), Range(0, 5))
    ensures CheckSubsetAsWritten(Range(0, 100), Range(0, 5)) == 1
    ensures CheckSubset(Range(0, 100), Range(0, 5)) == 0
  {
    assert BitAnd(1, 2) == 2 * BitAnd(0, 1) + 0 == 0;
  }

  // ---------------------------------------------------------------------
  // route_decision

  /** Which range test `route_decision` calls: `check_subset` as written, or the test it evidently intends. */
  datatype RangeTest = AsWritten | Intended

  /** The range test `check` applied to `list1` and `list2`. */
  function Check(check: RangeTest, list1: Range, list2: Range): (r: int)
    ensures r == 0 || r == 1
  {
    match check
    case AsWritten => CheckSubsetAsWritten(list1, list2)
    case Intended => CheckSubset(list1, list2)
  }

  /** The branch `route_decision` ends in; the drops carry the rule ASN they report. */
  datatype Decision =
    | LengthMismatch          // the length test fails: no ASN part is checked
    | Kept                    // every positive rule part was matched
    | PositionDrop(asn: int)  // an equal test ASN sits at another position
    | FrequencyDrop(asn: int) // an equal test ASN has a frequency outside the rule's
    | AsnDrop(asn: int)       // no test ASN equals the rule ASN

  /** The outcome of `route_decision` and the final value of `match_rule_count`. */
  datatype Verdict = Verdict(decision: Decision, remaining: int)

  /** The state of the inner loop over the test parts: still going, or returned. */
  datatype Scan = Going(count: int, matched: bool) | Stopped(decision: Decision, count: int)

  /**
   * The inner loop for rule part `x` over the test parts `ys` still to
   * visit: the counter only goes down, a set flag stays set, and a stop
   * is a position or frequency drop of the rule ASN.
   */
  function Inner(check: RangeTest, x: Part, ys: seq<Part>, count: int, matched: bool): (r: Scan)
    ensures r.count <= count
    ensures r.Going? && matched ==> r.matched
    ensures r.Stopped? ==> r.decision in {PositionDrop(x.asn), FrequencyDrop(x.asn)}
    decreases |ys|
  {
    if ys == [] then Going(count, matched)
    else if ys[0].asn != x.asn then Inner(check, x, ys[1..], count, matched)
    else if x.pos != 0 && x.pos != ys[0].pos then Stopped(PositionDrop(x.asn), count)
    else if Check(check, ys[0].freq, x.freq) == 1 then Inner(check, x, ys[1..], count - 1, true)
    else Stopped(FrequencyDrop(x.asn), count)
  }

  /**
   * The outer loop over the rule parts `xs` still to visit, after the
   * length test passed: it never reports a length mismatch, and the
   * counter only goes down.
   */
  function Outer(check: RangeTest, xs: seq<Part>, ys: seq<Part>, count: int): (r: Verdict)
    ensures r.decision != LengthMismatch && r.remaining <= count
    decreases |xs|
  {
    if xs == [] then Verdict(Kept, count)
    else if xs[0].asn <= 0 then Outer(check, xs[1..], ys, count)
    else
      match Inner(check, xs[0], ys, count, false)
      case Stopped(d, c) => Verdict(d, c)
      case Going(c, matched) => if !matched then Verdict(AsnDrop(xs[0].asn), c) else Outer(check, xs[1..], ys, c)
  }

  /** What `route_decision(rule, test)` does with the range test `check`: the counter never exceeds the number of rule parts. */
  function Decide(check: RangeTest, rule: AsPath, test: AsPath): (r: Verdict)
    ensures r.remaining <= |rule.asns|
  {
    if Check(check, test.length, rule.length) == 1 then Outer(check, rule.asns, test.asns, |rule.asns|)
    else Verdict(LengthMismatch, |rule.asns|)
  }

  /**
   * `route_decision` as written: the nested loops over the rule parts and
   * the test parts, calling `check_subset` as written and returning at the
   * first drop.
   */
  method RouteDecision(rule: AsPath, test: AsPath) returns (d: Decision, remaining: int)
    ensures Verdict(d, remaining) == Decide(AsWritten, rule, test)
  {
    var matchRuleCount := |rule.asns|;
    if CheckSubsetAsWritten(test.length, rule.length) != 1 {
      return LengthMismatch, matchRuleCount;
    }
    for i := 0 to |rule.asns|
      invariant Outer(AsWritten, rule.asns, test.asns, |rule.asns|)
        == Outer(AsWritten, rule.asns[i..], test.asns, matchRuleCount)
    {
      var x := rule.asns[i];
      assert rule.asns[i..][1..] == rule.asns[i + 1..];
      if x.asn > 0 {
        var matchFlag := false;
        ghost var start := matchRuleCount;
        for j := 0 to |test.asns|
          invariant Inner(AsWritten, x, test.asns, start, false)
            == Inner(AsWritten, x, test.asns[j..], matchRuleCount, matchFlag)
        {
          var y := test.asns[j];
          assert test.asns[j..][1..] == test.asns[j + 1..];
          if y.asn == x.asn {
            if x.pos != 0 {
              if x.pos != y.pos {
                return PositionDrop(x.asn), matchRuleCount;
              }
            }
            if CheckSubsetAsWritten(y.freq, x.freq) == 1 {
              matchRuleCount := matchRuleCount - 1;
              matchFlag := true;
            } else {
              return FrequencyDrop(x.asn), matchRuleCount;
            }
          }
        }
        if !matchFlag {
          return AsnDrop(x.asn), matchRuleCount;
        }
      }
    }
    return Kept, matchRuleCount;
  }

  // ---------------------------------------------------------------------
  // What route_decision decides

  /** How many test parts carry `asn`. */
  function Occurrences(ys: seq<Part>, asn: int): (n: nat)
    ensures n <= |ys|
  {
    if ys == [] then 0 else (if ys[0].asn == asn then 1 else 0) + Occurrences(ys[1..], asn)
  }

  /** How many matches the positive rule parts `xs` find among the test parts. */
  function MatchCount(xs: seq<Part>, ys: seq<Part>): nat
  {
    if xs == [] then 0
    else (if xs[0].asn > 0 then Occurrences(ys, xs[0].asn) else 0) + MatchCount(xs[1..], ys)
  }

  /** Test part `y` passes rule part `x`: the position if one is required, and the frequency range. */
  predicate PartPasses(check: RangeTest, x: Part, y: Part)
  {
    (x.pos == 0 || x.pos == y.pos) && Check(check, y.freq, x.freq) == 1
  }

  /** Rule part `x` is satisfied by the test parts `ys`: it occurs, and every occurrence passes. */
  predicate Satisfied(check: RangeTest, x: Part, ys: seq<Part>)
  {
    (exists j :: 0 <= j < |ys| && ys[j].asn == x.asn)
    && (forall j :: 0 <= j < |ys| && ys[j].asn == x.asn ==> PartPasses(check, x, ys[j]))
  }

  /** Every positive rule part is satisfied. */
  predicate AllSatisfied(check: RangeTest, xs: seq<Part>, ys: seq<Part>)
  {
    forall i :: 0 <= i < |xs| && xs[i].asn > 0 ==> Satisfied(check, xs[i], ys)
  }

  /**
   * The inner loop runs to its end exactly when every test part with the
   * rule ASN passes; it then has counted each of them once and set the
   * flag if there was one.
   */
  lemma {:induction false} InnerGoing(check: RangeTest, x: Part, ys: seq<Part>, count: int, matched: bool)
    ensures Inner(check, x, ys, count, matched).Going?
      <==> forall j :: 0 <= j < |ys| && ys[j].asn == x.asn ==> PartPasses(check, x, ys[j])
    ensures Inner(check, x, ys, count, matched).Going? ==>
      Inner(check, x, ys, count, matched)
        == Going(count - Occurrences(ys, x.asn), matched || exists j :: 0 <= j < |ys| && ys[j].asn == x.asn)
    decreases |ys|
  {
    if ys != [] {
      InnerGoing(check, x, ys[1..], if ys[0].asn == x.asn then count - 1 else count, matched || ys[0].asn == x.asn);
      forall j | 0 <= j < |ys[1..]|
        ensures ys[1..][j] == ys[j + 1]
      {
      }
      if exists j :: 0 <= j < |ys| && ys[j].asn == x.asn {
        var j :| 0 <= j < |ys| && ys[j].asn == x.asn;
        if j > 0 {
          assert ys[1..][j - 1].asn == x.asn;
        }
      }
    }
  }

  /** The outer loop keeps a path exactly when every positive part is satisfied, and then has counted every match. */
  lemma {:induction false} OuterKept(check: RangeTest, xs: seq<Part>, ys: seq<Part>, count: int)
    ensures Outer(check, xs, ys, count).decision == Kept <==> AllSatisfied(check, xs, ys)
    ensures Outer(check, xs, ys, count).decision == Kept ==>
      Outer(check, xs, ys, count).remaining == count - MatchCount(xs, ys)
    decreases |xs|
  {
    if xs != [] {
      assert forall i :: 0 <= i < |xs[1..]| ==> xs[1..][i] == xs[i + 1];
      if xs[0].asn <= 0 {
        OuterKept(check, xs[1..], ys, count);
      } else {
        InnerGoing(check, xs[0], ys, count, false);
        match Inner(check, xs[0], ys, count, false)
        case Stopped(d, c) =>
          assert !Satisfied(check, xs[0], ys);
        case Going(c, matched) =>
          OuterKept(check, xs[1..], ys, c);
      }
    }
  }

  /**
   * `route_decision` keeps the test path exactly when its length range
   * passes the range test and every positive rule part is satisfied.
   */
  lemma KeptIff(check: RangeTest, rule: AsPath, test: AsPath)
    ensures Decide(check, rule, test).decision == Kept
      <==> Check(check, test.length, rule.length) == 1 && AllSatisfied(check, rule.asns, test.asns)
  {
    OuterKept(check, rule.asns, test.asns, |rule.asns|);
  }

  /** On a kept path `match_rule_count` has gone down once per match of a positive rule part. */
  lemma KeptCount(check: RangeTest, rule: AsPath, test: AsPath)
    requires Decide(check, rule, test).decision == Kept
    ensures Decide(check, rule, test).remaining == |rule.asns| - MatchCount(rule.asns, test.asns)
  {
    OuterKept(check, rule.asns, test.asns, |rule.asns|);
  }

  /** A failed length test is reported as such, and then no ASN part is checked: the counter is untouched. */
  lemma LengthMismatchIff(check: RangeTest, rule: AsPath, test: AsPath)
    ensures Decide(check, rule, test).decision == LengthMismatch <==> Check(check, test.length, rule.length) != 1
    ensures Decide(check, rule, test).decision == LengthMismatch ==> Decide(check, rule, test).remaining == |rule.asns|
  {
  }

  /** The inner loop up to the first test part carrying the rule ASN changes nothing. */
  lemma {:induction false} InnerUpTo(check: RangeTest, x: Part, ys: seq<Part>, j: nat, count: int, matched: bool)
    requires j < |ys| && forall k :: 0 <= k < j ==> ys[k].asn != x.asn
    ensures Inner(check, x, ys, count, matched) == Inner(check, x, ys[j..], count, matched)
    decreases j
  {
    if j > 0 {
      assert ys[1..][j - 1..] == ys[j..];
      InnerUpTo(check, x, ys[1..], j - 1, count, matched);
    }
  }

  /** Every positive rule part before `i` is satisfied. */
  predicate SatisfiedBefore(check: RangeTest, xs: seq<Part>, ys: seq<Part>, i: nat)
  {
    forall k :: 0 <= k < i && k < |xs| && xs[k].asn > 0 ==> Satisfied(check, xs[k], ys)
  }

  /** The matches rule part `x` contributes to `MatchCount`. */
  function PartMatches(x: Part, ys: seq<Part>): nat
  {
    if x.asn > 0 then Occurrences(ys, x.asn) else 0
  }

  /** A satisfied (or skipped) first rule part lets the outer loop go on, with the counter lowered by its matches. */
  lemma OuterStep(check: RangeTest, xs: seq<Part>, ys: seq<Part>, count: int)
    requires xs != [] && (xs[0].asn > 0 ==> Satisfied(check, xs[0], ys))
    ensures Outer(check, xs, ys, count) == Outer(check, xs[1..], ys, count - PartMatches(xs[0], ys))
  {
    if xs[0].asn > 0 {
      InnerGoing(check, xs[0], ys, count, false);
    }
  }

  /** The matches of a prefix of `i` parts: the first part's, then those of the next `i - 1`. */
  lemma MatchCountPrefix(xs: seq<Part>, ys: seq<Part>, i: nat)
    requires 0 < i <= |xs|
    ensures MatchCount(xs[..i], ys) == PartMatches(xs[0], ys) + MatchCount(xs[1..][..i - 1], ys)
  {
    assert xs[..i][1..] == xs[1..][..i - 1] && xs[..i][0] == xs[0];
  }

  /**
   * When the positive rule parts before `i` are satisfied, the outer loop
   * reaches part `i` with the counter lowered by their matches.
   */
  lemma {:induction false} OuterReaches(check: RangeTest, xs: seq<Part>, ys: seq<Part>, count: int, i: nat)
    requires i <= |xs| && SatisfiedBefore(check, xs, ys, i)
    ensures Outer(check, xs, ys, count) == Outer(check, xs[i..], ys, count - MatchCount(xs[..i], ys))
    decreases i
  {
    if i == 0 {
      assert xs[..0] == [] && xs[0..] == xs;
    } else {
      var rest := xs[1..];
      assert rest[i - 1..] == xs[i..];
      assert SatisfiedBefore(check, rest, ys, i - 1) by {
        forall k | 0 <= k < i - 1 && k < |rest| && rest[k].asn > 0
          ensures Satisfied(check, rest[k], ys)
        {
          assert rest[k] == xs[k + 1];
        }
      }
      OuterStep(check, xs, ys, count);
      OuterReaches(check, rest, ys, count - PartMatches(xs[0], ys), i - 1);
      MatchCountPrefix(xs, ys, i);
    }
  }

  /**
   * A positive rule ASN with a required position, whose first equal test
   * ASN sits at another position, drops the route whatever the
   * frequencies, once the positive parts before it are satisfied.
   */
  lemma PositionMismatchDrops(check: RangeTest, rule: AsPath, test: AsPath, i: nat, j: nat)
    requires Check(check, test.length, rule.length) == 1
    requires i < |rule.asns| && rule.asns[i].asn > 0 && SatisfiedBefore(check, rule.asns, test.asns, i)
    requires j < |test.asns| && test.asns[j].asn == rule.asns[i].asn
    requires forall k :: 0 <= k < j ==> test.asns[k].asn != rule.asns[i].asn
    requires rule.asns[i].pos != 0 && test.asns[j].pos != rule.asns[i].pos
    ensures Decide(check, rule, test)
      == Verdict(PositionDrop(rule.asns[i].asn), |rule.asns| - MatchCount(rule.asns[..i], test.asns))
  {
    var c := |rule.asns| - MatchCount(rule.asns[..i], test.asns);
    OuterReaches(check, rule.asns, test.asns, |rule.asns|, i);
    assert rule.asns[i..][0] == rule.asns[i];
    InnerUpTo(check, rule.asns[i], test.asns, j, c, false);
  }

  /**
   * A positive rule ASN whose first equal test ASN is at an acceptable
   * position but fails the frequency test drops the route, once the
   * positive parts before it are satisfied.
   */
  lemma FrequencyMismatchDrops(check: RangeTest, rule: AsPath, test: AsPath, i: nat, j: nat)
    requires Check(check, test.length, rule.length) == 1
    requires i < |rule.asns| && rule.asns[i].asn > 0 && SatisfiedBefore(check, rule.asns, test.asns, i)
    requires j < |test.asns| && test.asns[j].asn == rule.asns[i].asn
    requires forall k :: 0 <= k < j ==> test.asns[k].asn != rule.asns[i].asn
    requires rule.asns[i].pos == 0 || test.asns[j].pos == rule.asns[i].pos
    requires Check(check, test.asns[j].freq, rule.asns[i].freq) != 1
    ensures Decide(check, rule, test)
      == Verdict(FrequencyDrop(rule.asns[i].asn), |rule.asns| - MatchCount(rule.asns[..i], test.asns))
  {
    var c := |rule.asns| - MatchCount(rule.asns[..i], test.asns);
    OuterReaches(check, rule.asns, test.asns, |rule.asns|, i);
    assert rule.asns[i..][0] == rule.asns[i];
    InnerUpTo(check, rule.asns[i], test.asns, j, c, false);
  }

  /** A positive rule ASN that no test ASN equals drops the route, once the positive parts before it are satisfied. */
  lemma MissingAsnDrops(check: RangeTest, rule: AsPath, test: AsPath, i: nat)
    requires Check(check, test.length, rule.length) == 1
    requires i < |rule.asns| && rule.asns[i].asn > 0 && SatisfiedBefore(check, rule.asns, test.asns, i)
    requires forall k :: 0 <= k < |test.asns| ==> test.asns[k].asn != rule.asns[i].asn
    ensures Decide(check, rule, test)
      == Verdict(AsnDrop(rule.asns[i].asn), |rule.asns| - MatchCount(rule.asns[..i], test.asns))
  {
    var c := |rule.asns| - MatchCount(rule.asns[..i], test.asns);
    OuterReaches(check, rule.asns, test.asns, |rule.asns|, i);
    assert rule.asns[i..][0] == rule.asns[i];
    InnerGoing(check, rule.asns[i], test.asns, c, false);
    NoOccurrences(test.asns, rule.asns[i].asn);
  }

  lemma {:induction false} NoOccurrences(ys: seq<Part>, asn: int)
    requires forall k :: 0 <= k < |ys| ==> ys[k].asn != asn
    ensures Occurrences(ys, asn) == 0
  {
    if ys != [] {
      assert forall k :: 0 <= k < |ys[1..]| ==> ys[1..][k] == ys[k + 1];
      NoOccurrences(ys[1..], asn);
    }
  }

  /** The rule parts with a positive ASN. */
  function Positives(xs: seq<Part>): (ps: seq<Part>)
    ensures forall i :: 0 <= i < |ps| ==> ps[i].asn > 0
    ensures |ps| <= |xs|
  {
    if xs == [] then []
    else (if xs[0].asn > 0 then [xs[0]] else []) + Positives(xs[1..])
  }

  /** The outcome does not depend on where the counter starts, only its final value shifts. */
  lemma {:induction false} InnerShift(check: RangeTest, x: Part, ys: seq<Part>, count: int, matched: bool, d: int)
    ensures Inner(check, x, ys, count + d, matched) == match Inner(check, x, ys, count, matched)
      case Going(c, m) => Going(c + d, m)
      case Stopped(dec, c) => Stopped(dec, c + d)
    decreases |ys|
  {
    if ys != [] {
      InnerShift(check, x, ys[1..], count, matched, d);
      InnerShift(check, x, ys[1..], count - 1, true, d);
    }
  }

  lemma {:induction false} OuterShift(check: RangeTest, xs: seq<Part>, ys: seq<Part>, count: int, d: int)
    ensures Outer(check, xs, ys, count + d)
      == Verdict(Outer(check, xs, ys, count).decision, Outer(check, xs, ys, count).remaining + d)
    decreases |xs|
  {
    if xs != [] {
      if xs[0].asn <= 0 {
        OuterShift(check, xs[1..], ys, count, d);
      } else {
        InnerShift(check, xs[0], ys, count, false, d);
        match Inner(check, xs[0], ys, count, false)
        case Stopped(_, _) =>
        case Going(c, _) => OuterShift(check, xs[1..], ys, c, d);
      }
    }
  }

  /** Skipping the non-positive parts as the loop does: the outer loop over all parts equals the loop over the positive ones. */
  lemma {:induction false} OuterSkipsNonPositive(check: RangeTest, xs: seq<Part>, ys: seq<Part>, count: int)
    ensures Outer(check, xs, ys, count) == Outer(check, Positives(xs), ys, count)
    decreases |xs|
  {
    if xs != [] {
      OuterSkipsNonPositive(check, xs[1..], ys, count);
      if xs[0].asn > 0 {
        var ps := Positives(xs);
        assert ps == [xs[0]] + Positives(xs[1..]);
        assert ps != [] && ps[0] == xs[0] && ps[1..] == Positives(xs[1..]);
        match Inner(check, xs[0], ys, count, false)
        case Stopped(_, _) =>
        case Going(c, _) => OuterSkipsNonPositive(check, xs[1..], ys, c);
      } else {
        assert Positives(xs) == [] + Positives(xs[1..]) == Positives(xs[1..]);
      }
    }
  }

  /**
   * Rule parts with a non-positive ASN are skipped: dropping them from the
   * rule leaves the decision unchanged and the counter lower by their number.
   */
  lemma NonPositivePartsSkipped(check: RangeTest, rule: AsPath, test: AsPath)
    ensures Decide(check, AsPath(rule.length, Positives(rule.asns)), test).decision == Decide(check, rule, test).decision
    ensures Decide(check, AsPath(rule.length, Positives(rule.asns)), test).remaining
      == Decide(check, rule, test).remaining - (|rule.asns| - |Positives(rule.asns)|)
  {
    var ps := Positives(rule.asns);
    OuterSkipsNonPositive(check, rule.asns, test.asns, |rule.asns|);
    OuterShift(check, ps, test.asns, |ps|, |rule.asns| - |ps|);
  }

  // ---------------------------------------------------------------------
  // The program as written against the intended test

  /** Every length and frequency range of a path is natural and non-empty. */
  predicate NaturalRanges(p: AsPath)
  {
    && 0 <= p.length.lo <= p.length.hi
    && forall k :: 0 <= k < |p.asns| ==> 0 <= p.asns[k].freq.lo <= p.asns[k].freq.hi
  }

  /**
   * On natural, non-empty ranges the program as written keeps every route
   * the intended test keeps: the defect only lets more routes through.
   */
  lemma AsWrittenKeepsMore(rule: AsPath, test: AsPath)
    requires NaturalRanges(rule) && NaturalRanges(test)
    ensures Decide(Intended, rule, test).decision == Kept ==> Decide(AsWritten, rule, test).decision == Kept
  {
    KeptIff(Intended, rule, test);
    KeptIff(AsWritten, rule, test);
    if Decide(Intended, rule, test).decision == Kept {
      WithinPassesAsWritten(test.length, rule.length);
      forall i | 0 <= i < |rule.asns| && rule.asns[i].asn > 0
        ensures Satisfied(AsWritten, rule.asns[i], test.asns)
      {
        assert Satisfied(Intended, rule.asns[i], test.asns);
        forall j | 0 <= j < |test.asns| && test.asns[j].asn == rule.asns[i].asn
          ensures PartPasses(AsWritten, rule.asns[i], test.asns[j])
        {
          assert PartPasses(Intended, rule.asns[i], test.asns[j]);
          WithinPassesAsWritten(test.asns[j].freq, rule.asns[i].freq);
        }
      }
    }
  }

  /**
   * The script's own call: rule 14 at position 1 with frequency [1,1]
   * against a test path holding 14 at position 1 with frequency [1,2]. As
   * written the route is kept with the counter at 0; with the intended
   * test it is dropped on the frequency.
   */
  lemma ScriptDecision()
    ensures Decide(AsWritten, AsPath(Range(1, 1), [Part(14, 1, Range(1, 1))]), AsPath(Range(1, 1), [Part(14, 1, Range(1, 2))]))
      == Verdict(Kept, 0)
    ensures Decide(Intended, AsPath(Range(1, 1), [Part(14, 1, Range(1, 1))]), AsPath(Range(1, 1), [Part(14, 1, Range(1, 2))]))
      == Verdict(FrequencyDrop(14), 1)
  {
    assert BitAnd(1, 1) == 2 * BitAnd(0, 0) + 1 == 1;
    assert BitAnd(1, 2) == 2 * BitAnd(0, 1) + 0 == 0;
  }

  /** A path of length [0,100] against a rule of length [0,5]: as written it is kept, as intended the length test fails. */
  lemma LengthDecision()
    ensures Decide(AsWritten, AsPath(Range(0, 5), []), AsPath(Range(0, 100), [])) == Verdict(Kept, 0)
    ensures Decide(Intended, AsPath(Range(0, 5), []), AsPath(Range(0, 100), [])) == Verdict(LengthMismatch, 0)
  {
  }
}
