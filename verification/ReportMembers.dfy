/** The member loop of the report parser: exactly when it returns the members that were sent. */
module ReportMembers {
  import opened Bytes
  import opened MmsValues
  import opened Reports
  import opened ReportRoundTrip
  import opened ReportDelivery
  import opened Powers

  // ---- The inclusion field ----

  lemma OddQuotient(x: nat, b: nat)
    requires b <= 7 && 1 <= x <= Pow2(b)
    ensures (256 - x) / Pow2(b) % 2 == 1
  {
    hide Pow2;
    SmallPowers();
    match b {
      case 0 =>
      case 1 => assert (256 - x) / 2 == 127;
      case 2 => assert (256 - x) / 4 == 63;
      case 3 => assert (256 - x) / 8 == 31;
      case 4 => assert (256 - x) / 16 == 15;
      case 5 => assert (256 - x) / 32 == 7;
      case 6 => assert (256 - x) / 64 == 3;
      case _ => assert (256 - x) / 128 == 1;
    }
  }

  lemma BitOfOctet(u: nat, b: nat)
    requires u <= b <= 7
    ensures Pow2(u) <= 128 && (256 - Pow2(u)) / Pow2(b) % 2 == 1
    ensures 255 / Pow2(b) % 2 == 1
  {
    hide Pow2;
    LowBits(u);
    Pow2Monotone(u, b);
    OddQuotient(Pow2(u), b);
    OddQuotient(1, b);
  }

  lemma SmallPowers()
    ensures Pow2(0) == 1 && Pow2(1) == 2 && Pow2(2) == 4 && Pow2(3) == 8
    ensures Pow2(4) == 16 && Pow2(5) == 32 && Pow2(6) == 64 && Pow2(7) == 128
  {
    assert Pow2(3) == 8;
    assert Pow2(6) == 64;
  }

  /** A GI report marks every member slot, and no slot otherwise. */
  lemma InclusionBits(n: nat, isGI: bool, i: nat)
    requires i < n
    ensures Included(InclusionField(n, isGI), i) == isGI
  {
    hide Pow2;
    var unused := (n + 7) / 8 * 8 - n;
    if i / 8 == (n + 7) / 8 - 1 {
      BitOfOctet(unused, 7 - i % 8);
    } else {
      BitOfOctet(0, 7 - i % 8);
    }
    ZeroOctet(7 - i % 8);
  }

  lemma ZeroOctet(b: nat)
    ensures 0 / Pow2(b) % 2 == 0
  {
  }

  // ---- The loop as a walk over the sent values ----

  /** The values taken for `m` slots, starting at index `p` of the sent items. */
  function Take(w: seq<Value>, p: nat, m: nat, dataRef: bool, reason: bool): seq<Value>
    decreases m
  {
    if m == 0 then []
    else
      var q := ValueIndex(w, p, dataRef);
      if q >= |w| then [Nil] + Take(w, q, m - 1, dataRef, reason)
      else if HasError(w[q]) then []
      else [Norm(w[q])] + Take(w, AfterReason(w, q + 1, reason), m - 1, dataRef, reason)
  }

  function AfterReason(w: seq<Value>, p: nat, reason: bool): nat {
    if reason && p < |w| && w[p].BitString? then p + 1 else p
  }

  function ValueIndex(w: seq<Value>, p: nat, dataRef: bool): nat {
    if dataRef && p < |w| && w[p].VisibleString? then p + 1 else p
  }

  lemma TakeOne(w: seq<Value>, p: nat, m: nat, dataRef: bool, reason: bool)
    requires m > 0
    ensures var q := ValueIndex(w, p, dataRef);
            && (q >= |w| ==> Take(w, p, m, dataRef, reason) == [Nil] + Take(w, q, m - 1, dataRef, reason))
            && (q < |w| && HasError(w[q]) ==> Take(w, p, m, dataRef, reason) == [])
            && (q < |w| && !HasError(w[q]) ==>
                  Take(w, p, m, dataRef, reason)
                  == [Norm(w[q])] + Take(w, AfterReason(w, q + 1, reason), m - 1, dataRef, reason))
  {
    hide HasError;
    hide Norm;
    hide AfterReason;
  }

  lemma TakeTextIs(w: seq<Value>, p: nat, flag: bool)
    requires p <= |w|
    ensures TakeText(Items(w[p..]), flag).rest
         == Items(w[ValueIndex(w, p, flag)..])
  {
    if p < |w| {
      assert w[p..][1..] == w[p + 1..];
    }
  }

  lemma TakeBitsIs(w: seq<Value>, p: nat, flag: bool)
    requires p <= |w|
    ensures TakeBits(Items(w[p..]), flag).rest == Items(w[AfterReason(w, p, flag)..])
  {
    if p < |w| {
      assert w[p..][1..] == w[p + 1..];
    }
  }

  lemma NextIs(w: seq<Value>, p: nat)
    requires p <= |w|
    ensures p == |w| ==> Next(Items(w[p..])) == End
    ensures p < |w| && HasError(w[p]) ==> Next(Items(w[p..])) == Bad
    ensures p < |w| && !HasError(w[p]) ==> Next(Items(w[p..])) == Got(Norm(w[p]), Items(w[p + 1..]))
  {
    if p < |w| {
      assert w[p..][1..] == w[p + 1..];
    }
  }

  lemma TakeNone(w: seq<Value>, p: nat, dataRef: bool, reason: bool)
    ensures Take(w, p, 0, dataRef, reason) == []
  {
  }

  lemma {:induction false} MembersAreTaken(w: seq<Value>, p: nat, n: nat, i: nat, o: Options, acc: Members)
    requires p <= |w| && i <= n
    ensures MembersFrom(Items(w[p..]), InclusionField(n, true), n, i, o, acc).values
         == acc.values + Take(w, p, n - i, o.dataRef, o.reason)
    decreases n - i
  {
    hide TakeText;
    hide TakeBits;
    hide Next;
    hide Included;
    hide InclusionField;
    hide Norm;
    hide HasError;
    hide Take;
    if i == n {
      assert Take(w, p, 0, o.dataRef, o.reason) == [] by {
        TakeNone(w, p, o.dataRef, o.reason);
      }
    } else {
      InclusionBits(n, true, i);
      TakeTextIs(w, p, o.dataRef);
      var q := ValueIndex(w, p, o.dataRef);
      NextIs(w, q);
      TakeOne(w, p, n - i, o.dataRef, o.reason);
      if q == |w| {
        MembersAreTaken(w, q, n, i + 1, o, Members(acc.values + [Nil], acc.reasons + [0]));
        assert acc.values + [Nil] + Take(w, q, n - i - 1, o.dataRef, o.reason)
            == acc.values + ([Nil] + Take(w, q, n - i - 1, o.dataRef, o.reason));
      } else if !HasError(w[q]) {
        TakeBitsIs(w, q + 1, o.reason);
        var code := ReasonCode(TakeBits(Items(w[q + 1..]), o.reason).value);
        var r := AfterReason(w, q + 1, o.reason);
        MembersAreTaken(w, r, n, i + 1, o, Members(acc.values + [Norm(w[q])], acc.reasons + [code]));
        assert acc.values + [Norm(w[q])] + Take(w, r, n - i - 1, o.dataRef, o.reason)
            == acc.values + ([Norm(w[q])] + Take(w, r, n - i - 1, o.dataRef, o.reason));
      }
    }
  }

  // ---- What was sent ----

  predicate ErrorFree(w: seq<Value>) {
    forall i :: 0 <= i < |w| ==> !HasError(w[i])
  }

  /** The normalised items `lo .. hi`. */
  function Sent(w: seq<Value>, lo: nat, hi: nat): (s: seq<Value>)
    requires lo <= hi <= |w|
    ensures |s| == hi - lo
    decreases hi - lo
  {
    if lo == hi then [] else [Norm(w[lo])] + Sent(w, lo + 1, hi)
  }

  lemma SentOne(w: seq<Value>, lo: nat, hi: nat)
    requires lo < hi <= |w|
    ensures Sent(w, lo, hi) == [Norm(w[lo])] + Sent(w, lo + 1, hi)
  {
  }

  lemma SentNone(w: seq<Value>, hi: nat)
    requires hi <= |w|
    ensures Sent(w, hi, hi) == []
  {
  }

  lemma HeadsAndTails(a: Value, s: seq<Value>, b: Value, t: seq<Value>)
    ensures [a] + s == [b] + t <==> a == b && s == t
  {
    if [a] + s == [b] + t {
      assert ([a] + s)[0] == ([b] + t)[0] && ([a] + s)[1..] == ([b] + t)[1..];
      assert ([a] + s)[1..] == s && ([b] + t)[1..] == t;
    }
  }

  lemma NormKeepsKind(v: Value, w: Value)
    requires Norm(v) == Norm(w)
    ensures v.BitString? == w.BitString? && v.VisibleString? == w.VisibleString?
  {
  }

  // ---- Values alone ----

  lemma {:induction false} PlainTake(w: seq<Value>, p: nat, m: nat)
    requires p + m <= |w| && ErrorFree(w)
    ensures Take(w, p, m, false, false) == Sent(w, p, p + m)
    decreases m
  {
    if m > 0 {
      PlainTake(w, p + 1, m - 1);
    }
  }

  // ---- Reasons behind the values ----

  /** Index of the first bit string at or after `i`, or `n`. */
  function FirstBits(w: seq<Value>, i: nat, n: nat): (k: nat)
    requires n <= |w|
    ensures i <= n ==> i <= k <= n
    ensures k < n ==> w[k].BitString?
    decreases n - i
  {
    if i >= n then n else if w[i].BitString? then i else FirstBits(w, i + 1, n)
  }

  /** From `k` on the reader is one item ahead, and falls another one behind its place with every member. */
  ghost predicate Slipped(w: seq<Value>, k: nat, j: nat, n: nat)
    requires 2 * n <= |w| && k <= j
  {
    forall i :: j <= i < n ==> Norm(w[i]) == Norm(w[2 * i - k + 1])
  }

  lemma {:induction false} SlippedAreBits(w: seq<Value>, k: nat, j: nat, n: nat, i: nat)
    requires 2 * n <= |w| && k <= j <= i < 2 * n && Slipped(w, k, j, n)
    requires forall r :: n <= r < 2 * n ==> w[r].BitString?
    ensures w[i].BitString?
    decreases 2 * n - i
  {
    if i < n {
      SlippedAreBits(w, k, j, n, 2 * i - k + 1);
      NormKeepsKind(w[i], w[2 * i - k + 1]);
    }
  }

  lemma {:induction false} SlippedTake(w: seq<Value>, k: nat, j: nat, n: nat)
    requires |w| == 2 * n && k <= j <= n && k < n && ErrorFree(w)
    requires forall r :: n <= r < 2 * n ==> w[r].BitString?
    requires forall r :: k <= r < 2 * j - k + 1 && r < 2 * n ==> w[r].BitString?
    ensures Take(w, 2 * j - k + 1, n - j, false, true) == Sent(w, j, n) <==> Slipped(w, k, j, n)
    decreases n - j
  {
    hide Norm;
    hide HasError;
    hide Take;
    hide Sent;
    var p := 2 * j - k + 1;
    if j == n {
      TakeNone(w, p, false, true);
      SentNone(w, n);
    } else {
      var next := AfterReason(w, p + 1, true);
      TakeOne(w, p, n - j, false, true);
      SentOne(w, j, n);
      HeadsAndTails(Norm(w[p]), Take(w, next, n - j - 1, false, true), Norm(w[j]), Sent(w, j + 1, n));
      if Norm(w[p]) == Norm(w[j]) {
        NormKeepsKind(w[p], w[j]);
        if j + 1 < n {
          SlipStep(w, k, j, n);
        } else {
          TakeNone(w, next, false, true);
          SentNone(w, n);
        }
      }
    }
  }

  lemma {:induction false} SlipStep(w: seq<Value>, k: nat, j: nat, n: nat)
    requires |w| == 2 * n && k <= j && j + 1 < n && ErrorFree(w)
    requires forall r :: n <= r < 2 * n ==> w[r].BitString?
    requires forall r :: k <= r <= 2 * j - k + 1 && r < 2 * n ==> w[r].BitString?
    requires Norm(w[2 * j - k + 1]) == Norm(w[j])
    ensures Take(w, AfterReason(w, 2 * j - k + 2, true), n - j - 1, false, true) == Sent(w, j + 1, n)
        <==> Slipped(w, k, j, n)
    decreases n - j, 0
  {
    hide Norm;
    hide HasError;
    hide Take;
    hide Sent;
    var p := 2 * j - k + 2;
    SentOne(w, j + 1, n);
    if w[p].BitString? {
      SlippedTake(w, k, j + 1, n);
    } else {
      var next := AfterReason(w, p + 1, true);
      TakeOne(w, p, n - j - 1, false, true);
      HeadsAndTails(Norm(w[p]), Take(w, next, n - j - 2, false, true), Norm(w[j + 1]), Sent(w, j + 2, n));
      if Norm(w[p]) == Norm(w[j + 1]) {
        NormKeepsKind(w[p], w[j + 1]);
      }
      if Slipped(w, k, j, n) {
        SlippedAreBits(w, k, j, n, p);
      }
    }
  }

  /** The reader is in step up to the first bit string after the member it has just read. */
  lemma {:induction false} ReasonTake(w: seq<Value>, i: nat, n: nat)
    requires |w| == 2 * n && i < n && ErrorFree(w)
    requires forall r :: n <= r < 2 * n ==> w[r].BitString?
    ensures var k := FirstBits(w, i + 1, n);
            Take(w, i, n - i, false, true) == Sent(w, i, n) <==> (k < n ==> Slipped(w, k, k, n))
    decreases n - i
  {
    hide Norm;
    hide HasError;
    hide Take;
    hide Sent;
    hide Slipped;
    var next := AfterReason(w, i + 1, true);
    TakeOne(w, i, n - i, false, true);
    SentOne(w, i, n);
    HeadsAndTails(Norm(w[i]), Take(w, next, n - i - 1, false, true), Norm(w[i]), Sent(w, i + 1, n));
    if i + 1 == n {
      TakeNone(w, next, false, true);
      SentNone(w, n);
    } else if w[i + 1].BitString? {
      SlippedTake(w, i + 1, i + 1, n);
    } else {
      ReasonTake(w, i + 1, n);
    }
  }

  // ---- References in front of the values ----

  /** Member `i` must equal the item at 2i+1, which is a reference or an earlier member. */
  ghost predicate Paired(w: seq<Value>, j: nat, n: nat)
    requires 2 * n <= |w|
  {
    forall i :: j <= i < n - 1 ==> Norm(w[n + i]) == Norm(w[2 * i + 1])
  }

  lemma {:induction false} RefTake(w: seq<Value>, j: nat, n: nat, reason: bool)
    requires j < n && 2 * n <= |w| && ErrorFree(w)
    requires forall r :: 0 <= r < n + j && r < 2 * n - 1 ==> w[r].VisibleString?
    ensures Take(w, 2 * j, n - j, true, reason) == Sent(w, n + j, 2 * n) <==> Paired(w, j, n)
    decreases n - j
  {
    hide Norm;
    hide HasError;
    hide Take;
    hide Sent;
    var next := AfterReason(w, 2 * j + 2, reason);
    assert ValueIndex(w, 2 * j, true) == 2 * j + 1;
    TakeOne(w, 2 * j, n - j, true, reason);
    SentOne(w, n + j, 2 * n);
    HeadsAndTails(Norm(w[2 * j + 1]), Take(w, next, n - j - 1, true, reason), Norm(w[n + j]), Sent(w, n + j + 1, 2 * n));
    if j == n - 1 {
      TakeNone(w, next, true, reason);
      SentNone(w, 2 * n);
    } else if Norm(w[2 * j + 1]) == Norm(w[n + j]) {
      NormKeepsKind(w[2 * j + 1], w[n + j]);
      RefTake(w, j + 1, n, reason);
    }
  }

  // ---- The theorem ----

  /** Everything to be sent behind the header: references, members, reasons, as the option bits ask. */
  function AllItems(p: ReportParams): seq<Value> {
    var o := OptionsOf(p.optFlds);
    (if o.dataRef then RefItems(UsedRefs(p)) else []) + p.values + (if o.reason then ReasonItems(p) else [])
  }

  lemma AllItemsSent(p: ReportParams)
    requires AllEncode(p.values)
    ensures MemberItems(p) == AllItems(p)
  {
    hide OptionsOf;
    EncodablesAll(p.values);
  }

  /** The reader is never led off by what it finds. */
  ghost predicate Faithful(p: ReportParams)
    requires |p.refs| == |p.values| || !OptionsOf(p.optFlds).dataRef
  {
    var o, w, n := OptionsOf(p.optFlds), AllItems(p), |p.values|;
    && !o.entryID
    && !AnyError(p.values)
    && (o.dataRef ==> Paired(w, 0, n))
    && (o.reason && !o.dataRef ==> var k := FirstBits(w, 1, n); k < n ==> Slipped(w, k, k, n))
  }

  lemma {:induction false} SentIsNorm(w: seq<Value>, lo: nat, hi: nat)
    requires lo <= hi <= |w|
    ensures Sent(w, lo, hi) == NormAll(w[lo..hi])
    decreases hi - lo
  {
    hide Norm;
    if lo < hi {
      SentIsNorm(w, lo + 1, hi);
      assert w[lo..hi][1..] == w[lo + 1..hi] && w[lo..hi][0] == w[lo];
    }
  }

  lemma {:induction false} NormKeepsError(v: Value)
    ensures HasError(Norm(v)) == HasError(v)
    decreases v
  {
    match v
    case Array(elements) => NormAllKeepsError(elements);
    case Structure(members) => NormAllKeepsError(members);
    case _ =>
  }

  lemma {:induction false} NormAllKeepsError(vs: seq<Value>)
    ensures AnyError(NormAll(vs)) == AnyError(vs)
    decreases vs
  {
    if vs != [] {
      NormKeepsError(vs[0]);
      NormAllKeepsError(vs[1..]);
      assert NormAll(vs)[1..] == NormAll(vs[1..]);
    }
  }

  /** The client never hands out a value with an error inside. */
  lemma {:induction false} TakenErrorFree(w: seq<Value>, p: nat, m: nat, dataRef: bool, reason: bool)
    ensures !AnyError(Take(w, p, m, dataRef, reason))
    decreases m
  {
    hide Norm;
    hide HasError;
    hide Take;
    if m == 0 {
      TakeNone(w, p, dataRef, reason);
    } else {
      TakeOne(w, p, m, dataRef, reason);
      var q := ValueIndex(w, p, dataRef);
      if q >= |w| {
        TakenErrorFree(w, q, m - 1, dataRef, reason);
        ErrorCons(Nil, Take(w, q, m - 1, dataRef, reason));
        NilIsNoError();
      } else if !HasError(w[q]) {
        var rest := Take(w, AfterReason(w, q + 1, reason), m - 1, dataRef, reason);
        TakenErrorFree(w, AfterReason(w, q + 1, reason), m - 1, dataRef, reason);
        NormKeepsError(w[q]);
        ErrorCons(Norm(w[q]), rest);
      }
    }
  }

  lemma NilIsNoError()
    ensures !HasError(Nil)
  {
  }

  lemma ErrorCons(v: Value, vs: seq<Value>)
    ensures AnyError([v] + vs) <==> HasError(v) || AnyError(vs)
  {
    hide HasError;
    assert ([v] + vs)[1..] == vs;
  }

  lemma {:induction false} AnyErrorMeans(vs: seq<Value>)
    ensures !AnyError(vs) <==> ErrorFree(vs)
  {
    hide HasError;
    if vs != [] {
      AnyErrorMeans(vs[1..]);
      assert forall i :: 0 <= i < |vs[1..]| ==> vs[1..][i] == vs[i + 1];
      assert forall i :: 1 <= i < |vs| ==> vs[i] == vs[1..][i - 1];
    }
  }

  lemma AllItemsErrorFree(p: ReportParams)
    requires !AnyError(p.values)
    ensures ErrorFree(AllItems(p))
  {
    hide OptionsOf;
    AnyErrorMeans(p.values);
    var w, o := AllItems(p), OptionsOf(p.optFlds);
    var r := if o.dataRef then |UsedRefs(p)| else 0;
    forall i | 0 <= i < |w| ensures !HasError(w[i]) {
      if r <= i < r + |p.values| {
        assert w[i] == p.values[i - r];
      }
    }
  }

  /** Where the members stand among everything sent. */
  lemma ItemsPlaced(p: ReportParams)
    ensures var w, n := AllItems(p), |p.values|;
            && (!OptionsOf(p.optFlds).dataRef ==> n <= |w| && w[0..n] == p.values)
            && (OptionsOf(p.optFlds).dataRef && |p.refs| == n ==>
                  2 * n <= |w| && w[n..2 * n] == p.values && forall r :: 0 <= r < n ==> w[r].VisibleString?)
  {
    hide OptionsOf;
  }

  lemma TakenWithRefs(p: ReportParams)
    requires |p.values| > 0 && !AnyError(p.values)
    requires OptionsOf(p.optFlds).dataRef && |p.refs| == |p.values|
    ensures Take(AllItems(p), 0, |p.values|, true, OptionsOf(p.optFlds).reason) == NormAll(p.values)
        <==> Paired(AllItems(p), 0, |p.values|)
  {
    hide OptionsOf;
    hide Take;
    hide Norm;
    hide HasError;
    hide AllItems;
    var w, n := AllItems(p), |p.values|;
    AllItemsErrorFree(p);
    ItemsPlaced(p);
    SentIsNorm(w, n, 2 * n);
    RefTake(w, 0, n, OptionsOf(p.optFlds).reason);
  }

  lemma TakenWithReasons(p: ReportParams)
    requires |p.values| > 0 && !AnyError(p.values)
    requires OptionsOf(p.optFlds).reason && !OptionsOf(p.optFlds).dataRef
    ensures var w, n := AllItems(p), |p.values|;
            var k := FirstBits(w, 1, n);
            Take(w, 0, n, false, true) == NormAll(p.values) <==> (k < n ==> Slipped(w, k, k, n))
  {
    hide OptionsOf;
    hide Take;
    hide Norm;
    hide HasError;
    hide Slipped;
    hide FirstBits;
    var w, n := AllItems(p), |p.values|;
    AllItemsErrorFree(p);
    assert w[0..n] == p.values;
    SentIsNorm(w, 0, n);
    ReasonTake(w, 0, n);
  }

  lemma TakenPlain(p: ReportParams)
    requires !AnyError(p.values)
    requires !OptionsOf(p.optFlds).reason && !OptionsOf(p.optFlds).dataRef
    ensures Take(AllItems(p), 0, |p.values|, false, false) == NormAll(p.values)
  {
    hide OptionsOf;
    hide Take;
    hide Norm;
    hide HasError;
    hide AllItems;
    var w, n := AllItems(p), |p.values|;
    AllItemsErrorFree(p);
    ItemsPlaced(p);
    SentIsNorm(w, 0, n);
    PlainTake(w, 0, n);
  }

  /** What the client takes for the members, whatever did not encode. */
  function Found(p: ReportParams): seq<Value> {
    var o := OptionsOf(p.optFlds);
    if o.entryID then [] else Take(MemberItems(p), 0, |p.values|, o.dataRef, o.reason)
  }

  lemma MembersFound(p: ReportParams)
    requires |p.values| > 0 && p.isGI
    ensures MembersOf(p).values == Found(p)
  {
    hide OptionsOf;
    hide Take;
    hide MemberItems;
    hide MembersFrom;
    hide InclusionField;
    var o, w, n := OptionsOf(p.optFlds), MemberItems(p), |p.values|;
    if !o.entryID {
      assert w[0..] == w;
      MembersAreTaken(w, 0, n, 0, o, Members([], []));
      var taken := Take(w, 0, n, o.dataRef, o.reason);
      assert [] + taken == taken;
    }
  }

  lemma MembersRecovered(p: ReportParams)
    requires |p.values| > 0 && p.isGI && AllEncode(p.values)
    requires OptionsOf(p.optFlds).dataRef ==> |p.refs| == |p.values|
    ensures Found(p) == NormAll(p.values) <==> Faithful(p)
  {
    hide OptionsOf;
    hide Take;
    hide MemberItems;
    hide AllItems;
    AllItemsSent(p);
    hide FirstBits;
    hide Slipped;
    hide Paired;
    var o, w, n := OptionsOf(p.optFlds), MemberItems(p), |p.values|;
    if !o.entryID {
      if AnyError(p.values) {
        TakenErrorFree(w, 0, n, o.dataRef, o.reason);
        NormAllKeepsError(p.values);
      } else if o.dataRef {
        TakenWithRefs(p);
      } else if o.reason {
        TakenWithReasons(p);
      } else {
        TakenPlain(p);
      }
    }
  }

  /**
   * A GI report as sendReport builds it. The client always recovers report ID and header fields (the
   * configuration revision only without an entry ID), and takes for the members what Found says; when all
   * members encode, these are the members, normalised and in order, if and only if the report is Faithful.
   */
  lemma ShortReportDelivered(p: ReportParams, beyond: bytes)
    requires Buildable(p) && p.isGI
    requires OptionsOf(p.optFlds).dataRef ==> |p.refs| == |p.values|
    ensures var r := ReceiveReport(View(ReportPDU(p), beyond));
            && r.Ok?
            && r.value == ExpectedReport(p, Members(r.value.values, r.value.reasons))
            && r.value.values == Found(p)
            && (AllEncode(p.values) ==> (r.value.values == NormAll(p.values) <==> Faithful(p)))
  {
    hide ParseFields;
    hide ReceiveReport;
    hide ReportPDU;
    hide ReportItems;
    hide MembersOf;
    hide Faithful;
    hide Found;
    hide AllEncode;
    ReportIsItemParse(p, beyond);
    HeaderParsed(p);
    MembersFound(p);
    if AllEncode(p.values) {
      MembersRecovered(p);
    }
  }

  /** No flag of entry ID or data reference, and no bit string after the first member: all is well. */
  lemma PlainReportDelivered(p: ReportParams, beyond: bytes)
    requires Buildable(p) && p.isGI && AllEncode(p.values) && !AnyError(p.values)
    requires !OptionsOf(p.optFlds).entryID && !OptionsOf(p.optFlds).dataRef
    requires OptionsOf(p.optFlds).reason ==> forall i :: 1 <= i < |p.values| ==> !p.values[i].BitString?
    ensures ReceiveReport(View(ReportPDU(p), beyond)).Ok?
    ensures ReceiveReport(View(ReportPDU(p), beyond)).value.values == NormAll(p.values)
  {
    hide OptionsOf;
    hide ReceiveReport;
    hide ReportPDU;
    ShortReportDelivered(p, beyond);
    var w, n := AllItems(p), |p.values|;
    assert w[..n] == p.values;
    forall i | 0 <= i < n ensures w[i] == p.values[i] {
      assert w[..n][i] == w[i];
    }
  }

  // ---- Members that do not encode ----

  function Nils(n: nat): (s: seq<Value>)
    ensures |s| == n && forall i :: 0 <= i < n ==> s[i] == Nil
  {
    if n == 0 then [] else [Nil] + Nils(n - 1)
  }

  /** Behind the last item every further slot is filled with nil. */
  lemma {:induction false} PlainTakeAll(w: seq<Value>, p: nat, m: nat)
    requires p <= |w| <= p + m && ErrorFree(w)
    ensures Take(w, p, m, false, false) == Sent(w, p, |w|) + Nils(m - (|w| - p))
    decreases m
  {
    hide Norm;
    hide HasError;
    hide Take;
    hide Sent;
    if m == 0 {
      TakeNone(w, p, false, false);
      SentNone(w, p);
    } else {
      TakeOne(w, p, m, false, false);
      if p < |w| {
        PlainTakeAll(w, p + 1, m - 1);
        SentOne(w, p, |w|);
        assert [Norm(w[p])] + (Sent(w, p + 1, |w|) + Nils(m - (|w| - p)))
            == ([Norm(w[p])] + Sent(w, p + 1, |w|)) + Nils(m - (|w| - p));
      } else {
        PlainTakeAll(w, p, m - 1);
        SentNone(w, p);
        assert [Nil] + ([] + Nils(m - 1)) == [] + Nils(m);
      }
    }
  }

  lemma {:induction false} EncodablesPrefix(vs: seq<Value>, k: nat)
    requires k <= |vs| && AllEncode(vs[..k]) && forall i :: k <= i < |vs| ==> !EncodeValue(vs[i]).Ok?
    ensures Encodables(vs) == vs[..k]
    decreases |vs|
  {
    hide EncodeValue;
    if vs != [] {
      if k == 0 {
        EncodablesPrefix(vs[1..], 0);
      } else {
        assert vs[..k][0] == vs[0] && vs[..k][1..] == vs[1..][..k - 1];
        EncodablesPrefix(vs[1..], k - 1);
      }
    }
  }

  lemma EncodableIsNoNil(v: Value)
    ensures EncodeValue(v).Ok? ==> Norm(v) != Nil
    ensures Norm(v) == Nil ==> v == Nil
    ensures !EncodeValue(Nil).Ok?
  {
  }

  lemma NilsStay(s: seq<Value>, vs: seq<Value>, m: nat)
    requires m <= |s| == |vs| && s == NormAll(vs) && forall i :: m <= i < |s| ==> s[i] == Nil
    ensures forall i :: m <= i < |vs| ==> vs[i] == Nil
  {
    hide EncodeValue;
    hide Norm;
    forall i | m <= i < |vs| ensures vs[i] == Nil {
      assert s[i] == Norm(vs[i]);
      EncodableIsNoNil(vs[i]);
    }
  }

  lemma NormOfPrefix(vs: seq<Value>, m: nat)
    requires m <= |vs| && forall i :: m <= i < |vs| ==> vs[i] == Nil
    ensures NormAll(vs[..m]) + Nils(|vs| - m) == NormAll(vs)
  {
    hide Norm;
    NilStays();
    var a, b := NormAll(vs[..m]) + Nils(|vs| - m), NormAll(vs);
    forall i | 0 <= i < |vs| ensures a[i] == b[i] {
      assert i < m ==> vs[..m][i] == vs[i];
    }
  }

  /** The members that encode, followed by nils, are the members, if and only if only nils at the end do not encode. */
  lemma ShiftedExactly(vs: seq<Value>)
    ensures var m := |Encodables(vs)|;
            NormAll(Encodables(vs)) + Nils(|vs| - m) == NormAll(vs) <==> forall i :: m <= i < |vs| ==> vs[i] == Nil
  {
    hide EncodeValue;
    hide Norm;
    hide Encodables;
    hide NormAll;
    hide Nils;
    var m := |Encodables(vs)|;
    if NormAll(Encodables(vs)) + Nils(|vs| - m) == NormAll(vs) {
      NilsStay(NormAll(Encodables(vs)) + Nils(|vs| - m), vs, m);
    }
    if forall i :: m <= i < |vs| ==> vs[i] == Nil {
      EncodableIsNoNil(Nil);
      CountEncodables(vs, m);
      EncodablesPrefix(vs, m);
      NormOfPrefix(vs, m);
    }
  }

  lemma NilStays()
    ensures Norm(Nil) == Nil
  {
  }

  /** As many encode as stand in front of the nils, so these all do. */
  lemma {:induction false} CountEncodables(vs: seq<Value>, m: nat)
    requires m <= |vs| && |Encodables(vs)| >= m && forall i :: m <= i < |vs| ==> !EncodeValue(vs[i]).Ok?
    ensures AllEncode(vs[..m])
    decreases |vs|
  {
    hide EncodeValue;
    if vs != [] {
      if m == 0 {
        assert vs[..0] == [];
      } else {
        NoMoreEncodables(vs[1..], m - 1);
        CountEncodables(vs[1..], m - 1);
        assert vs[..m] == [vs[0]] + vs[1..][..m - 1];
      }
    }
  }

  lemma {:induction false} NoMoreEncodables(vs: seq<Value>, m: nat)
    requires m <= |vs| && forall i :: m <= i < |vs| ==> !EncodeValue(vs[i]).Ok?
    ensures |Encodables(vs)| <= m
    decreases |vs|
  {
    hide EncodeValue;
    if vs != [] {
      NoMoreEncodables(vs[1..], if m == 0 then 0 else m - 1);
    }
  }

  /**
   * A plain report some of whose members do not encode: the others close up, nils fill the slots at the end, and the
   * client has the members as they were if and only if all that did not encode were nil pointers at the end.
   */
  lemma GapsClose(p: ReportParams, beyond: bytes)
    requires Buildable(p) && p.isGI && !AnyError(Encodables(p.values))
    requires !OptionsOf(p.optFlds).entryID && !OptionsOf(p.optFlds).dataRef && !OptionsOf(p.optFlds).reason
    ensures var r, m := ReceiveReport(View(ReportPDU(p), beyond)), |Encodables(p.values)|;
            && r.Ok? && r.value.values == NormAll(Encodables(p.values)) + Nils(|p.values| - m)
            && (r.value.values == NormAll(p.values) <==> forall i :: m <= i < |p.values| ==> p.values[i] == Nil)
  {
    hide OptionsOf;
    hide ReceiveReport;
    hide ReportPDU;
    hide Encodables;
    hide Take;
    hide Norm;
    hide HasError;
    hide MemberItems;
    hide Faithful;
    hide AllEncode;
    ShortReportDelivered(p, beyond);
    ShiftedExactly(p.values);
    PlainFound(p);
  }

  lemma PlainFound(p: ReportParams)
    requires !AnyError(Encodables(p.values))
    requires !OptionsOf(p.optFlds).entryID && !OptionsOf(p.optFlds).dataRef && !OptionsOf(p.optFlds).reason
    ensures Found(p) == NormAll(Encodables(p.values)) + Nils(|p.values| - |Encodables(p.values)|)
  {
    hide OptionsOf;
    hide Encodables;
    hide Take;
    hide Norm;
    hide HasError;
    var w := Encodables(p.values);
    assert MemberItems(p) == w;
    AnyErrorMeans(w);
    PlainTakeAll(w, 0, |p.values|);
    assert w[0..|w|] == w;
    SentIsNorm(w, 0, |w|);
  }

  /** With one reason for all members, the slip goes unnoticed only if every later member equals that reason. */
  lemma {:induction false} UniformSlip(w: seq<Value>, k: nat, n: nat, reason: Value)
    requires |w| == 2 * n && k < n
    requires forall r :: n <= r < 2 * n ==> w[r] == reason
    ensures Slipped(w, k, k, n) <==> forall i :: k <= i < n ==> Norm(w[i]) == Norm(reason)
  {
    if Slipped(w, k, k, n) {
      forall i | k <= i < n ensures Norm(w[i]) == Norm(reason) {
        SlipChain(w, k, n, reason, i);
      }
    }
  }

  lemma {:induction false} SlipChain(w: seq<Value>, k: nat, n: nat, reason: Value, i: nat)
    requires |w| == 2 * n && k <= i < 2 * n && k < n && Slipped(w, k, k, n)
    requires forall r :: n <= r < 2 * n ==> w[r] == reason
    ensures Norm(w[i]) == Norm(reason)
    decreases 2 * n - i
  {
    if i < n {
      SlipChain(w, k, n, reason, 2 * i - k + 1);
    }
  }

  /** A report that is not a general interrogation delivers no member at all. */
  lemma {:induction false} NoneIncluded(s: Source, n: nat, i: nat, o: Options, acc: Members)
    requires i <= n
    ensures |MembersFrom(s, InclusionField(n, false), n, i, o, acc).values| == |acc.values| + n - i
    ensures forall j :: |acc.values| <= j < |acc.values| + n - i ==>
                          MembersFrom(s, InclusionField(n, false), n, i, o, acc).values[j] == Nil
    decreases n - i
  {
    hide Included;
    hide InclusionField;
    if i < n {
      InclusionBits(n, false, i);
      var acc' := Members(acc.values + [Nil], acc.reasons + [0]);
      NoneIncluded(s, n, i + 1, o, acc');
      KeepsPrefix(s, InclusionField(n, false), n, i + 1, o, acc');
    }
  }

  lemma {:induction false} KeepsPrefix(s: Source, bits: bytes, n: int, i: nat, o: Options, acc: Members)
    ensures acc.values <= MembersFrom(s, bits, n, i, o, acc).values
    decreases n - i
  {
    hide Included;
    hide TakeText;
    hide TakeBits;
    hide Next;
    if i < n {
      if !Included(bits, i) {
        KeepsPrefix(s, bits, n, i + 1, o, Members(acc.values + [Nil], acc.reasons + [0]));
      } else {
        var s1 := TakeText(s, o.dataRef).rest;
        match Next(s1)
        case Bad =>
        case End => KeepsPrefix(s1, bits, n, i + 1, o, Members(acc.values + [Nil], acc.reasons + [0]));
        case Got(v, s2) =>
          var r := TakeBits(s2, o.reason);
          KeepsPrefix(r.rest, bits, n, i + 1, o, Members(acc.values + [v], acc.reasons + [ReasonCode(r.value)]));
      }
    }
  }
}
