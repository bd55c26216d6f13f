/** Reports from the run that starts them to the client that reads them. */
module ReportRuns {
  import opened Bytes
  import opened Ber
  import opened MmsValues
  import opened LayerStack
  import opened MmsPdus
  import opened MmsPduRoundTrip
  import opened Reports
  import opened ReportRoundTrip
  import opened ReportDelivery
  import opened ReportOverflow
  import opened Server
  import opened ServerRuns

  /** What every report of the server has in common: all members marked, one reference each, no reasons of its own. */
  predicate FromServer(p: ReportParams) {
    p.isGI && |p.refs| == |p.values| && p.reasonCodes == [] && !p.bufOvfl
  }

  predicate AllFromServer(built: seq<Server.Report>) {
    forall i :: 0 <= i < |built| ==> FromServer(built[i].params)
  }

  lemma StepFromServer(s: State, step: Step)
    requires AllComplete(s.brcbs) && AllFromServer(s.built)
    ensures AllFromServer(ServerRuns.Next(s, step).built)
  {
    hide Released;
    hide Reportable;
    hide Counted;
  }

  lemma {:induction false} RunFromServer(s: State, steps: seq<Step>)
    requires AllComplete(s.brcbs) && AllFromServer(s.built)
    ensures AllFromServer(Run(s, steps).built)
    decreases |steps|
  {
    hide ServerRuns.Next;
    if steps != [] {
      RunFromServer(s, steps[..|steps| - 1]);
      StepFromServer(Run(s, steps[..|steps| - 1]), steps[|steps| - 1]);
    }
  }

  /** What the subscriber's receive loop makes of a report. */
  function SubscriberGets(p: ReportParams, beyond: bytes): Result<Reports.Report> {
    var data :- Carried(ReportPDU(p), beyond);
    if data.seen == [] || data.seen[0] != 0xA3 then Err else ReceiveReport(data)
  }

  /** The layers let a report through: its length modulo 65536 is small enough, and covers its tag and length. */
  predicate Carriable(p: ReportParams) {
    |ReportPDU(p)| - |ReportService(p)| <= |ReportPDU(p)| % 0x1_0000 <= 65524
  }

  lemma ReceivedLike(p: ReportParams, data: View, beyond: bytes)
    requires PduBody(0xA3, data) == PduBody(0xA3, View(ReportPDU(p), beyond))
    ensures ReceiveReport(data) == ReceiveReport(View(ReportPDU(p), beyond))
  {
    hide PduBody;
    hide ReportPDU;
    hide ParseFields;
  }

  lemma ServiceSize(p: ReportParams)
    requires Sendable(p)
    ensures |ReportService(p)| < LIMIT
  {
    hide ResultBody;
    hide ContextTLV;
    var list := ContextTLV(0, true, ResultBody(p));
    ContextSize(0, true, ResultBody(p));
    PrimSize(0xA1, REPORT_NAME);
    ContextSize(0, true, Prim(0xA1, REPORT_NAME) + list);
  }

  lemma FirstIsTag(tag: byte, body: bytes, n: nat, beyond: bytes)
    requires 0 < n <= |Prim(tag, body)|
    ensures Part(Prim(tag, body), n, beyond).seen[0] == tag
  {
  }

  lemma NotCarried(p: ReportParams, data: View)
    requires PduBody(0xA3, data) == Err
    ensures ReceiveReport(data) == Err
  {
    hide PduBody;
    hide ParseFields;
  }

  /** A report of the server, through all layers: its subscriber reads it if and only if it is Carriable. */
  lemma OneReportArrives(p: ReportParams, beyond: bytes)
    requires FromServer(p) && Sendable(p)
    ensures var r := SubscriberGets(p, beyond);
            if Carriable(p)
            then r.Ok? && r.value == ExpectedReport(p, Members(r.value.values, r.value.reasons))
                 && (AllEncode(p.values) ==> (r.value.values == NormAll(p.values) <==> Arrives(p)))
            else r == Err
  {
    hide Prim;
    hide ReportService;
    hide ReceiveReport;
    hide PduBody;
    hide Carried;
    hide Part;
    hide Sendable;
    hide Arrives;
    hide OptionsOf;
    var pdu, n := ReportPDU(p), |ReportPDU(p)| % 0x1_0000;
    ServiceSize(p);
    PrimLonger(0xA3, ReportService(p));
    DataPathExactly(pdu, beyond);
    PartBody(0xA3, ReportService(p), n, beyond);
    if 0 < n <= 65524 {
      var data := Part(pdu, n, beyond);
      FirstIsTag(0xA3, ReportService(p), n, beyond);
      if Carriable(p) {
        WholeBody(0xA3, ReportService(p), beyond);
        ReceivedLike(p, data, beyond);
        ReportDelivered(p, beyond);
      } else {
        NotCarried(p, data);
      }
    }
  }

  /** The reports of one block are among those built. */
  lemma {:induction false} BuiltForFrom(built: seq<Server.Report>, rcb: Text, n: nat)
    requires AllFromServer(built) && n < |BuiltFor(built, rcb)|
    ensures FromServer(BuiltFor(built, rcb)[n].params) && BuiltFor(built, rcb)[n].rcb == rcb
    decreases |built|
  {
    hide FromServer;
    if n < |BuiltFor(built[..|built| - 1], rcb)| {
      BuiltForFrom(built[..|built| - 1], rcb, n);
    }
  }

  /**
   * Every report that any run builds for a block whose SqNum nobody writes: its subscriber reads it if and only if it
   * is Carriable, as all reports of at most 65524 octets are, and then reads the header fields, the number being the
   * block's first plus its position in the run, and the members if and only if it Arrives.
   */
  lemma RunReportsArrive(s: State, steps: seq<Step>, rcb: Text, n: nat, beyond: bytes)
    requires AllComplete(s.brcbs) && HasNumber(s, rcb) && s.built == []
    requires forall i :: 0 <= i < |steps| ==> !WritesSqNum(steps[i], rcb)
    requires n < |BuiltFor(Run(s, steps).built, rcb)|
    requires Sendable(BuiltFor(Run(s, steps).built, rcb)[n].params)
    ensures var p := BuiltFor(Run(s, steps).built, rcb)[n].params;
            var r := SubscriberGets(p, beyond);
            && (|ReportPDU(p)| <= 65524 ==> Carriable(p))
            && (r.Ok? <==> Carriable(p))
            && (r.Ok? ==>
                  && FromServer(p)
                  && r.value == ExpectedReport(p, Members(r.value.values, r.value.reasons))
                  && (OptionsOf(p.optFlds).seqNum ==> r.value.sequenceNumber == (Number(s, rcb) + n + 1) % 0x1_0000)
                  && (AllEncode(p.values) ==> (r.value.values == NormAll(p.values) <==> Arrives(p))))
  {
    hide ReportPDU;
    hide SubscriberGets;
    hide Carriable;
    hide Sendable;
    hide Arrives;
    hide OptionsOf;
    hide Run;
    hide FromServer;
    hide BuiltFor;
    RunFromServer(s, steps);
    var built := Run(s, steps).built;
    assert built[|s.built|..] == built;
    NumbersRise(s, steps, rcb);
    BuiltForFrom(built, rcb, n);
    OneReportArrives(BuiltFor(built, rcb)[n].params, beyond);
    SmallCarriable(BuiltFor(built, rcb)[n].params);
  }

  lemma SmallCarriable(p: ReportParams)
    ensures |ReportPDU(p)| <= 65524 ==> Carriable(p)
  {
    hide ReportService;
    PrimLonger(0xA3, ReportService(p));
  }
}
