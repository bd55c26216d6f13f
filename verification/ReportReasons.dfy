/** Reasons for inclusion: the builder puts all of them behind the members, the client looks for one behind each. */
module ReportReasons {
  import opened Bytes
  import opened MmsValues
  import opened ReportDelivery
  import opened ReportMembers
  import opened ReportOptions
  import opened ReportRoundTrip
  import opened Reports

  /** IEC 61850-7-2: 1 data change, 2 quality change, 3 data update, 4 integrity, 5 general interrogation, 6 application. */
  function FirstReason(octet: byte): int {
    if Included([octet], 1) then 1
    else if Included([octet], 2) then 2
    else if Included([octet], 3) then 3
    else if Included([octet], 4) then 4
    else if Included([octet], 5) then 5
    else if Included([octet], 6) then 6
    else 0
  }

  lemma CodeByBits(octet: byte)
    ensures ReasonCode(Some(Norm(BitString([octet], 6)))) == FirstReason(octet)
  {
    Weights();
    assert Fit([octet], 1) == [octet];
  }

  /** No reason for `k` members. */
  function Absent(k: nat): (s: seq<int>)
    ensures |s| == k && forall i :: 0 <= i < k ==> s[i] == 0
  {
    seq(k, _ => 0)
  }

  lemma LookForReason(w: seq<Value>, p: nat)
    requires p < |w| && !HasError(w[p])
    ensures TakeBits(Items(w[p..]), true)
         == if w[p].BitString? then Taken(Some(Norm(w[p])), Items(w[p + 1..])) else Taken(None, Items(w[p..]))
  {
    assert w[p..][1..] == w[p + 1..];
  }

  lemma Step(w: seq<Value>, n: nat, i: nat, o: Options, acc: Members)
    requires i < n <= |w| && !o.dataRef && o.reason && !HasError(w[i])
    ensures var t := TakeBits(Items(w[i + 1..]), true);
            MembersFrom(Items(w[i..]), InclusionField(n, true), n, i, o, acc)
            == MembersFrom(t.rest, InclusionField(n, true), n, i + 1, o,
                           Members(acc.values + [Norm(w[i])], acc.reasons + [ReasonCode(t.value)]))
  {
    hide TakeBits;
    hide Next;
    hide Included;
    hide InclusionField;
    hide ReasonCode;
    InclusionBits(n, true, i);
    NextIs(w, i);
    NoReference(Items(w[i..]));
  }

  lemma NoReference(s: Source)
    ensures TakeText(s, false) == Taken(None, s)
  {
  }

  lemma {:induction false} ReasonsRead(w: seq<Value>, n: nat, i: nat, o: Options, acc: Members)
    requires |w| == 2 * n && i < n && !o.dataRef && o.reason && ErrorFree(w)
    requires w[n].BitString? && forall r :: 1 <= r < n ==> !w[r].BitString?
    ensures MembersFrom(Items(w[i..]), InclusionField(n, true), n, i, o, acc).reasons
         == acc.reasons + Absent(n - 1 - i) + [ReasonCode(Some(Norm(w[n])))]
    decreases n - i
  {
    hide TakeBits;
    hide MembersFrom;
    hide InclusionField;
    hide Norm;
    hide HasError;
    hide ReasonCode;
    Step(w, n, i, o, acc);
    LookForReason(w, i + 1);
    NoReason();
    if i + 1 < n {
      ReasonsRead(w, n, i + 1, o, Members(acc.values + [Norm(w[i])], acc.reasons + [0]));
      assert acc.reasons + [0] + Absent(n - 2 - i) == acc.reasons + Absent(n - 1 - i);
    } else {
      LoopEnds(Items(w[n + 1..]), InclusionField(n, true), n, n, o,
               Members(acc.values + [Norm(w[i])], acc.reasons + [ReasonCode(Some(Norm(w[n])))]));
      assert acc.reasons + Absent(0) == acc.reasons;
    }
  }

  /** The reason that the builder writes for a member. */
  function ReasonSent(p: ReportParams, i: nat): int {
    FirstReason(ReasonOf(p, i))
  }

  /** Members in good order, and none but the first a bit string. */
  predicate Orderly(p: ReportParams) {
    var o := OptionsOf(p.optFlds);
    && Buildable(p) && p.isGI && AllEncode(p.values) && !AnyError(p.values)
    && !o.entryID && !o.dataRef && o.reason
    && forall i :: 1 <= i < |p.values| ==> !p.values[i].BitString?
  }

  lemma OrderlyItems(p: ReportParams)
    requires Orderly(p)
    ensures var w, n := MemberItems(p), |p.values|;
            && |w| == 2 * n && ErrorFree(w) && w[n] == BitString([ReasonOf(p, 0)], 6)
            && forall r :: 1 <= r < n ==> !w[r].BitString?
  {
    hide OptionsOf;
    AllItemsSent(p);
    AllItemsErrorFree(p);
    hide MemberItems;
  }

  lemma ReasonsFound(p: ReportParams)
    requires Orderly(p)
    ensures MembersOf(p).reasons == Absent(|p.values| - 1) + [ReasonSent(p, 0)]
  {
    hide OptionsOf;
    hide MembersFrom;
    hide InclusionField;
    hide MemberItems;
    hide ErrorFree;
    hide Norm;
    hide ReasonCode;
    hide FirstReason;
    var w, n := MemberItems(p), |p.values|;
    OrderlyItems(p);
    ReasonsRead(w, n, 0, OptionsOf(p.optFlds), Members([], []));
    assert w[0..] == w && [] + Absent(n - 1) == Absent(n - 1);
    CodeByBits(ReasonOf(p, 0));
  }

  /** The reason read for a member. */
  lemma ReadReasons(p: ReportParams, reasons: seq<int>)
    requires |p.values| > 0 && reasons == Absent(|p.values| - 1) + [ReasonSent(p, 0)]
    ensures var n := |p.values|;
            (forall i :: 0 <= i < n ==> reasons[i] == ReasonSent(p, i))
            <==> (forall i :: 0 <= i < n - 1 ==> ReasonSent(p, i) == 0) && ReasonSent(p, n - 1) == ReasonSent(p, 0)
    ensures p.reasonCodes == [] && p.isGI ==>
              ((forall i :: 0 <= i < |p.values| ==> reasons[i] == ReasonSent(p, i)) <==> |p.values| == 1)
  {
    hide FirstReason;
    var n := |p.values|;
    assert forall i :: 0 <= i < n - 1 ==> reasons[i] == 0;
    assert reasons[n - 1] == ReasonSent(p, 0);
    if p.reasonCodes == [] && p.isGI {
      Interrogated();
      assert ReasonSent(p, 0) == 5;
    }
  }

  lemma Interrogated()
    ensures FirstReason(0x04) == 5
  {
    Weights();
  }

  lemma OrderlyBuildable(p: ReportParams)
    requires Orderly(p)
    ensures Buildable(p) && |p.values| > 0 && p.isGI
  {
  }

  /**
   * The client gives the first member's reason to the last member and none to the others. So all reasons arrive as sent
   * if and only if none but the last is one, and that is also the first's; in the reports of the server, where all
   * reasons are the general interrogation's, if and only if there is one member.
   */
  lemma ReasonsArriveExactly(p: ReportParams, beyond: bytes)
    requires Orderly(p)
    ensures var r, n := ReceiveReport(View(ReportPDU(p), beyond)), |p.values|;
            && n > 0 && r.Ok? && r.value.reasons == Absent(n - 1) + [ReasonSent(p, 0)]
            && ((forall i :: 0 <= i < n ==> r.value.reasons[i] == ReasonSent(p, i))
                <==> (forall i :: 0 <= i < n - 1 ==> ReasonSent(p, i) == 0) && ReasonSent(p, n - 1) == ReasonSent(p, 0))
            && (p.reasonCodes == [] ==>
                  ((forall i :: 0 <= i < n ==> r.value.reasons[i] == ReasonSent(p, i)) <==> n == 1))
  {
    hide ReceiveReport;
    hide ReportPDU;
    hide ParseFields;
    hide ReportItems;
    hide MembersOf;
    hide ReasonSent;
    hide OptionsOf;
    hide Orderly;
    OrderlyBuildable(p);
    hide Buildable;
    ReportIsItemParse(p, beyond);
    HeaderParsed(p);
    ReasonsFound(p);
    ReadReasons(p, ReceiveReport(View(ReportPDU(p), beyond)).value.reasons);
  }
}
