/** From the configuration of a control block to what its subscriber reads. */
module ConfiguredReports {
  import opened Bytes
  import opened MmsValues
  import opened NameList
  import opened Reports
  import opened ReportOptions
  import opened ReportRoundTrip
  import opened ReportDelivery
  import opened ReportOverflow
  import opened Server
  import opened ServerRuns
  import opened ReportRuns

  // ---- The block of a configuration ----

  /** The `j`-th configured block counts for its name: it is buffered, and no later buffered one has the name. */
  predicate CountsFor(rcbs: seq<ControlConfig>, j: nat) {
    && j < |rcbs| && rcbs[j].rcb.buffered
    && forall k :: j < k < |rcbs| && rcbs[k].rcb.buffered ==> rcbs[k].rcb.name != rcbs[j].rcb.name
  }

  lemma {:induction false} BlockOf(iedName: Text, rcbs: seq<ControlConfig>, j: nat)
    requires CountsFor(rcbs, j)
    ensures rcbs[j].rcb.name in BlocksOf(iedName, rcbs)
    ensures BlocksOf(iedName, rcbs)[rcbs[j].rcb.name] == NewBrcb(iedName, rcbs[j])
  {
    hide NewBrcb;
    var init := rcbs[..|rcbs| - 1];
    if j < |init| {
      assert init[j] == rcbs[j];
      assert forall k :: j < k < |init| ==> init[k] == rcbs[k];
      BlockOf(iedName, init, j);
    }
  }

  // ---- Settings over runs ----

  /** The fields that a report quotes and no handler touches of itself. */
  predicate Setting(f: BrcbField) {
    f == RptID || f == DatSet || f == ConfRev || f == OptFlds
  }

  /** The step does not write these settings. */
  predicate LeavesSettings(step: Step, rcb: Text) {
    step.Write? && step.rcb == rcb && step.field.Some? ==> !Setting(step.field.value)
  }

  predicate SameSettings(b: Brcb, b': Brcb)
    requires Complete(b) && Complete(b')
  {
    forall f: BrcbField :: Setting(f) ==> b'.fields[f] == b.fields[f]
  }

  lemma WriteKeepsSettings(b: Brcb, c: ConnID, field: BrcbField, v: Value)
    requires Complete(b) && !Setting(field)
    ensures Complete(WrittenBlock(b, c, field, v)) && SameSettings(b, WrittenBlock(b, c, field, v))
  {
  }

  lemma ReleaseKeepsSettings(b: Brcb, c: ConnID)
    requires Complete(b)
    ensures Complete(Released(b, c)) && SameSettings(b, Released(b, c))
  {
  }

  lemma CountingKeepsSettings(b: Brcb)
    requires Complete(b) && Reportable(b)
    ensures Complete(Counted(b)) && SameSettings(b, Counted(b))
  {
  }

  lemma StepKeepsSettings(s: State, step: Step, rcb: Text)
    requires AllComplete(s.brcbs) && rcb in s.brcbs && LeavesSettings(step, rcb)
    ensures rcb in ServerRuns.Next(s, step).brcbs && SameSettings(s.brcbs[rcb], ServerRuns.Next(s, step).brcbs[rcb])
  {
    hide WrittenBlock;
    hide Released;
    hide Counted;
    hide Reportable;
    hide Starts;
    hide AllReadable;
    hide ParamsOf;
    hide SameSettings;
    SameSettingsAsItself(s.brcbs[rcb]);
    if CanStep(s, step) {
      match step
      case Accept =>
      case Leave(c) => ReleaseKeepsSettings(s.brcbs[rcb], c);
      case Write(c, r, field, v) =>
        if r == rcb && field.Some? {
          WriteKeepsSettings(s.brcbs[rcb], c, field.value, v);
        }
      case Update(hit) =>
      case Send(t, r) =>
        if t.rcb == rcb && Reportable(s.brcbs[rcb]) {
          CountingKeepsSettings(s.brcbs[rcb]);
        }
    }
  }

  lemma SameSettingsAsItself(b: Brcb)
    requires Complete(b)
    ensures SameSettings(b, b)
  {
  }

  lemma SettingsChain(a: Brcb, b: Brcb, c: Brcb)
    requires Complete(a) && Complete(b) && Complete(c) && SameSettings(a, b) && SameSettings(b, c)
    ensures SameSettings(a, c)
  {
  }

  lemma {:induction false} RunKeepsSettings(s: State, steps: seq<Step>, rcb: Text)
    requires AllComplete(s.brcbs) && rcb in s.brcbs
    requires forall i :: 0 <= i < |steps| ==> LeavesSettings(steps[i], rcb)
    ensures rcb in Run(s, steps).brcbs && SameSettings(s.brcbs[rcb], Run(s, steps).brcbs[rcb])
    decreases |steps|
  {
    hide ServerRuns.Next;
    hide SameSettings;
    hide LeavesSettings;
    if steps == [] {
      SameSettingsAsItself(s.brcbs[rcb]);
    } else {
      var init, step := steps[..|steps| - 1], steps[|steps| - 1];
      RunKeepsSettings(s, init, rcb);
      StepKeepsSettings(Run(s, init), step, rcb);
      SettingsChain(s.brcbs[rcb], Run(s, init).brcbs[rcb], Run(s, steps).brcbs[rcb]);
    }
  }

  // ---- Which step built a report ----

  /** The `k`-th step is what built the `n`-th report of the block. */
  predicate BuiltAt(s: State, steps: seq<Step>, rcb: Text, n: nat, k: nat)
    requires AllComplete(s.brcbs)
  {
    && k < |steps| && steps[k].Send? && steps[k].t.rcb == rcb
    && |BuiltFor(Run(s, steps[..k]).built, rcb)| == n
    && |BuiltFor(Run(s, steps[..k + 1]).built, rcb)| == n + 1
  }

  lemma BuiltForStep(built: seq<Server.Report>, r: Server.Report, rcb: Text)
    ensures BuiltFor(built + [r], rcb) == BuiltFor(built, rcb) + if r.rcb == rcb then [r] else []
  {
    assert (built + [r])[..|built|] == built;
  }

  /** What a step adds to the reports. */
  lemma StepBuilds(s: State, step: Step, rcb: Text)
    requires AllComplete(s.brcbs)
    ensures var before, after := BuiltFor(s.built, rcb), BuiltFor(ServerRuns.Next(s, step).built, rcb);
            || after == before
            || (&& step.Send? && step.t.rcb == rcb && rcb in s.brcbs && Reportable(s.brcbs[rcb])
                && after == before + [Server.Report(step.t.conn, rcb, ParamsOf(s.brcbs[rcb], step.reading))])
  {
    hide Released;
    hide WrittenBlock;
    hide Starts;
    hide AllReadable;
    hide Counted;
    hide ParamsOf;
    hide Reportable;
    hide BuiltFor;
    if CanStep(s, step) {
      match step
      case Accept =>
      case Leave(c) =>
      case Write(c, r, field, v) =>
      case Update(hit) =>
      case Send(t, r) =>
        if Reportable(s.brcbs[t.rcb]) {
          BuiltForStep(s.built, Server.Report(t.conn, t.rcb, ParamsOf(s.brcbs[t.rcb], r)), rcb);
          assert BuiltFor(s.built, rcb) + [] == BuiltFor(s.built, rcb);
        }
    }
  }

  /** The step that built a report, and the parameters it took from the block. */
  predicate BuiltWith(s: State, steps: seq<Step>, rcb: Text, n: nat, k: nat)
    requires AllComplete(s.brcbs) && n < |BuiltFor(Run(s, steps).built, rcb)|
  {
    && BuiltAt(s, steps, rcb, n, k)
    && var m := Run(s, steps[..k]);
    && rcb in m.brcbs && Reportable(m.brcbs[rcb])
    && BuiltFor(Run(s, steps).built, rcb)[n]
       == Server.Report(steps[k].t.conn, rcb, ParamsOf(m.brcbs[rcb], steps[k].reading))
  }

  lemma {:induction false} BuilderFound(s: State, steps: seq<Step>, rcb: Text, n: nat) returns (k: nat)
    requires AllComplete(s.brcbs) && BuiltFor(s.built, rcb) == [] && n < |BuiltFor(Run(s, steps).built, rcb)|
    ensures BuiltWith(s, steps, rcb, n, k)
    decreases |steps|
  {
    hide ServerRuns.Next;
    hide BuiltFor;
    hide ParamsOf;
    hide Reportable;
    var init, step := steps[..|steps| - 1], steps[|steps| - 1];
    StepBuilds(Run(s, init), step, rcb);
    assert steps[..|steps|] == steps;
    if n < |BuiltFor(Run(s, init).built, rcb)| {
      k := BuilderFound(s, init, rcb, n);
      assert steps[..k] == init[..k] && steps[..k + 1] == init[..k + 1];
    } else {
      k := |init|;
    }
  }

  // ---- What the subscriber reads ----

  /** The parameters of a report quote the settings and the values read. */
  lemma ParamsQuote(iedName: Text, c: ControlConfig, b: Brcb, r: Reading)
    requires Complete(b) && Reportable(b) && SameSettings(NewBrcb(iedName, c), b)
    ensures var p := ParamsOf(b, r);
            && p.rptID == ReportID(c) && p.datSet == DatSetRef(iedName, c) && p.confRev == c.confRev
            && p.optFlds == OptionBits(c.optFlds) && p.values == r.values && !p.bufOvfl
            && p.refs == r.refs && p.timestamp == r.timestamp
  {
    hide OptionBits;
    hide DatSetRef;
    hide ReportID;
    assert forall f: BrcbField :: Setting(f) ==> b.fields[f] == NewBrcb(iedName, c).fields[f];
    assert Setting(RptID) && Setting(DatSet) && Setting(ConfRev) && Setting(OptFlds);
  }

  /** The header of a report as its configuration has it. */
  predicate HeaderOf(r: Reports.Report, iedName: Text, c: ControlConfig) {
    && r.reportID == ReportID(c)
    && r.rcbReference == (if c.optFlds.dataSet then DatSetRef(iedName, c) else [])
    && r.confRev == (if c.optFlds.confRev && !c.optFlds.entryID then c.confRev else 0)
    && r.hasSeqNum == c.optFlds.seqNum && r.hasTimestamp == c.optFlds.timestamp && !r.bufferOverflow
  }

  lemma HeaderQuotes(r: Reports.Report, p: ReportParams, iedName: Text, c: ControlConfig)
    requires r == ExpectedReport(p, Members(r.values, r.reasons))
    requires p.rptID == ReportID(c) && p.datSet == DatSetRef(iedName, c) && p.confRev == c.confRev
    requires p.optFlds == OptionBits(c.optFlds) && !p.bufOvfl
    ensures HeaderOf(r, iedName, c)
  {
    hide OptionBits;
    hide OptionsOf;
    hide DatSetRef;
    hide ReportID;
    OptionsRead(c.optFlds);
  }

  /** The values that the step read for the report. */
  function ValuesAt(steps: seq<Step>, k: nat): seq<Value>
    requires k < |steps| && steps[k].Send?
  {
    steps[k].reading.values
  }

  /**
   * A new server, any run that does not write the settings or the number of a block, and any report built for it in the
   * run. Its subscriber reads it if and only if it is Carriable, and then reads report ID, data set and configuration
   * revision as configured, the position of the report in the run for its number, and, if it Arrives, the values that
   * the step which built it had read from the model.
   */
  lemma ConfiguredReportArrives(
      maxConnections: int, dataSets: set<Text>, iedName: Text, rcbs: seq<ControlConfig>, j: nat, steps: seq<Step>,
      n: nat, beyond: bytes)
    requires CountsFor(rcbs, j)
    requires forall i :: 0 <= i < |steps| ==>
               LeavesSettings(steps[i], rcbs[j].rcb.name) && !WritesSqNum(steps[i], rcbs[j].rcb.name)
    requires n < |BuiltFor(Run(NewState(maxConnections, dataSets, iedName, rcbs), steps).built, rcbs[j].rcb.name)|
    requires Sendable(BuiltFor(Run(NewState(maxConnections, dataSets, iedName, rcbs), steps).built, rcbs[j].rcb.name)[n].params)
    ensures var s, c := NewState(maxConnections, dataSets, iedName, rcbs), rcbs[j];
            var report := BuiltFor(Run(s, steps).built, c.rcb.name)[n];
            var r := SubscriberGets(report.params, beyond);
            && (r.Ok? <==> Carriable(report.params))
            && (|ReportPDU(report.params)| <= 65524 ==> r.Ok?)
            && (r.Ok? ==> FromServer(report.params) && HeaderOf(r.value, iedName, c))
            && (r.Ok? && c.optFlds.seqNum ==> r.value.sequenceNumber == (n + 1) % 0x1_0000)
            && exists k: nat ::
              && BuiltAt(s, steps, c.rcb.name, n, k) && report.conn == steps[k].t.conn
              && report.params.refs == steps[k].reading.refs && report.params.timestamp == steps[k].reading.timestamp
              && (r.Ok? && AllEncode(ValuesAt(steps, k)) ==>
                    (r.value.values == NormAll(ValuesAt(steps, k)) <==> Arrives(report.params)))
  {
    hide NewState;
    hide SubscriberGets;
    hide ReportPDU;
    hide Carriable;
    hide Sendable;
    hide Arrives;
    hide Run;
    hide BuiltFor;
    hide HeaderOf;
    hide LeavesSettings;
    hide WritesSqNum;
    hide FromServer;
    hide OptionsOf;
    hide AllEncode;
    hide BuiltAt;
    var s, c := NewState(maxConnections, dataSets, iedName, rcbs), rcbs[j];
    StartsAt(maxConnections, dataSets, iedName, rcbs, j);
    var k := QuotedFrom(s, iedName, c, steps, n);
    var p := BuiltFor(Run(s, steps).built, c.rcb.name)[n].params;
    RunReportsArrive(s, steps, c.rcb.name, n, beyond);
    OptionsRead(c.optFlds);
    if SubscriberGets(p, beyond).Ok? {
      HeaderQuotes(SubscriberGets(p, beyond).value, p, iedName, c);
    }
  }

  /** A report of a run that leaves the settings alone quotes them, and what the step that built it had read. */
  lemma QuotedFrom(s: State, iedName: Text, c: ControlConfig, steps: seq<Step>, n: nat) returns (k: nat)
    requires AllComplete(s.brcbs) && BuiltFor(s.built, c.rcb.name) == []
    requires c.rcb.name in s.brcbs && s.brcbs[c.rcb.name] == NewBrcb(iedName, c)
    requires forall i :: 0 <= i < |steps| ==> LeavesSettings(steps[i], c.rcb.name)
    requires n < |BuiltFor(Run(s, steps).built, c.rcb.name)|
    ensures BuiltAt(s, steps, c.rcb.name, n, k)
    ensures var report := BuiltFor(Run(s, steps).built, c.rcb.name)[n];
            var p := report.params;
            && report.conn == steps[k].t.conn && p.values == ValuesAt(steps, k)
            && p.refs == steps[k].reading.refs && p.timestamp == steps[k].reading.timestamp
            && p.rptID == ReportID(c) && p.datSet == DatSetRef(iedName, c) && p.confRev == c.confRev
            && p.optFlds == OptionBits(c.optFlds) && !p.bufOvfl
  {
    hide Run;
    hide BuiltFor;
    hide LeavesSettings;
    hide NewBrcb;
    hide ParamsOf;
    hide SameSettings;
    k := BuilderFound(s, steps, c.rcb.name, n);
    RunKeepsSettings(s, steps[..k], c.rcb.name);
    ParamsQuote(iedName, c, Run(s, steps[..k]).brcbs[c.rcb.name], steps[k].reading);
  }

  lemma StartsAt(maxConnections: int, dataSets: set<Text>, iedName: Text, rcbs: seq<ControlConfig>, j: nat)
    requires CountsFor(rcbs, j)
    ensures var s, name := NewState(maxConnections, dataSets, iedName, rcbs), rcbs[j].rcb.name;
            && AllComplete(s.brcbs) && s.built == [] && BuiltFor(s.built, name) == []
            && name in s.brcbs && s.brcbs[name] == NewBrcb(iedName, rcbs[j])
            && HasNumber(s, name) && Number(s, name) == 0
  {
    NewBlocksSound(iedName, rcbs);
    BlockOf(iedName, rcbs, j);
  }
}
