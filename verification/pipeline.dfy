/** `AgentPipeline.run`: the three stages in order, the lead record written once all of them
    have returned, and the job's status written before each stage, at the end and on
    failure. The empty job id stands for "no job". */
module Pipeline {
  import opened Results
  import opened Text
  import opened Valkey
  import opened Agents

  datatype Stage = Mining | Validating | Synthesizing

  /** Where, if anywhere, a run raises, and with what message. The stages of this repository
      are total; the fault stands for anything that raises while one is running (the store
      included), so that the failure path can be stated. */
  datatype Fault = NoFault | FailAt(stage: Stage, msg: string)

  function LeadKey(leadId: string): string {
    "leads:" + leadId
  }

  function JobLeadsKey(jobId: string): string {
    "jobs:" + jobId + ":leads"
  }

  /** `lead.get("id") or <fresh id>`. */
  function LeadId(lead: Lead, freshId: string): (id: string)
    requires freshId != ""
    ensures id != ""
    ensures "id" in lead && lead["id"] != "" ==> id == lead["id"]
    ensures !("id" in lead && lead["id"] != "") ==> id == freshId
  {
    if "id" in lead && lead["id"] != "" then lead["id"] else freshId
  }

  /** The synthesizer's record as stored: one field per attribute. */
  function LeadRecord(s: Synthesis): (h: Hash)
    ensures h.Keys == {"company", "fit_score", "wedge", "tech_stack", "signals"}
    ensures h["fit_score"] == Int(s.fitScore) && h["company"] == Str(s.company)
    ensures h["wedge"] == Str(s.wedge)
    ensures h["tech_stack"] == StrList(s.techStack) && h["signals"] == StrList(s.signals)
  {
    map[
      "company" := Str(s.company),
      "fit_score" := Int(s.fitScore),
      "wedge" := Str(s.wedge),
      "tech_stack" := StrList(s.techStack),
      "signals" := StrList(s.signals)]
  }

  /** `set_job_status` when there is a job; nothing otherwise. The snapshot is published
      (the in-memory store never fails to). */
  function Status(st: Store, jobId: string, status: string, progress: Option<real>, error: string): (r: Store)
    ensures jobId == "" ==> r == st
    ensures jobId != "" ==> r == SetJobStatus(st, jobId, status, progress, error, true)
  {
    if jobId == "" then st else SetJobStatus(st, jobId, status, progress, error, true)
  }

  function Snapshot(status: string, progress: Option<real>, error: string): Value {
    Doc(StatusMapping(status, progress, error))
  }

  /** The except branch: marks the job `failed` with the message (progress untouched) and
      raises the message again. */
  function Fail(st: Store, jobId: string, msg: string): (r: Step<Hash>)
    ensures r.out == Err(msg)
    ensures r.st == Status(st, jobId, "failed", None, msg)
  {
    Step(Status(st, jobId, "failed", None, msg), Err(msg))
  }

  /** The status snapshots a successful run publishes, in order. */
  function SuccessEvents(): seq<Value> {
    [Snapshot("mining", Some(0.2), ""), Snapshot("validating", Some(0.5), ""), Snapshot("complete", Some(1.0), "")]
  }

  /** The store once the status of `stage` has been written (the statuses of the stages
      before it included): `mining` before the miner, `validating` before the validator and
      still `validating` while the synthesizer runs. */
  function Reached(st: Store, jobId: string, stage: Stage): Store {
    var mining := Status(st, jobId, "mining", Some(0.2), "");
    if stage == Mining then mining else Status(mining, jobId, "validating", Some(0.5), "")
  }

  /** The job bookkeeping after the lead record: its id at the head of the job's lead list,
      then status `complete`. */
  function Finish(st: Store, jobId: string, leadId: string): Store {
    if jobId == "" then st
    else Status(LPush(st, JobLeadsKey(jobId), [Str(leadId)]), jobId, "complete", Some(1.0), "")
  }

  /** The store after a successful run: statuses of both stages, the lead record, then the
      job bookkeeping. */
  function Completed(st: Store, jobId: string, leadId: string, rec: Hash): Store {
    Finish(HSet(Reached(st, jobId, Synthesizing), LeadKey(leadId), rec, map[]), jobId, leadId)
  }

  /** `AgentPipeline.run(lead, job_id)`: on success the reply is the synthesized record plus
      the lead id; on a fault the message is raised again after the job is marked failed. */
  function Run(st: Store, lead: Lead, jobId: string, freshId: string, fault: Fault): (r: Step<Hash>)
    requires freshId != ""
    ensures fault.FailAt? ==>
              r == Step(Status(Reached(st, jobId, fault.stage), jobId, "failed", None, fault.msg), Err(fault.msg))
    ensures fault == NoFault ==>
              var rec := LeadRecord(Synthesize(lead, Mine(lead), Validate(lead)));
              var id := LeadId(lead, freshId);
              && r.out == Ok(rec["id" := Str(id)])
              && r.st == Completed(st, jobId, id, rec)
  {
    var mining := Status(st, jobId, "mining", Some(0.2), "");
    if fault.FailAt? && fault.stage == Mining then Fail(mining, jobId, fault.msg)
    else
      var mined := Mine(lead);
      var validating := Status(mining, jobId, "validating", Some(0.5), "");
      if fault.FailAt? then Fail(validating, jobId, fault.msg)
      else
        var validated := Validate(lead);
        var synthesized := Synthesize(lead, mined, validated);
        var id := LeadId(lead, freshId);
        var stored := HSet(validating, LeadKey(id), LeadRecord(synthesized), map[]);
        Step(Finish(stored, jobId, id), Ok(LeadRecord(synthesized)["id" := Str(id)]))
  }

  /** Writing statuses touches only the job's hash and event channel. */
  lemma ReachedKeepsOthers(st: Store, jobId: string, stage: Stage)
    ensures forall n :: n != JobKey(jobId) ==> HGetAll(Reached(st, jobId, stage), n) == HGetAll(st, n)
    ensures Reached(st, jobId, stage).lists == st.lists
    ensures jobId == "" ==> Reached(st, jobId, stage) == st
  {
  }

  lemma FinishKeepsLead(s: Store, jobId: string, leadId: string)
    ensures HGetAll(Finish(s, jobId, leadId), LeadKey(leadId)) == HGetAll(s, LeadKey(leadId))
  {
    JobKeyIsNotLeadKey(jobId, leadId);
  }

  lemma ReadBack(s: Store, name: string, rec: Hash)
    ensures HGetAll(HSet(s, name, rec, map[]), name) == HGetAll(s, name) + rec
  {
    assert rec + map[] == rec;
  }

  lemma CompletedStoresLead(st: Store, jobId: string, leadId: string, rec: Hash)
    ensures HGetAll(Completed(st, jobId, leadId, rec), LeadKey(leadId)) == HGetAll(st, LeadKey(leadId)) + rec
  {
    var reached := Reached(st, jobId, Synthesizing);
    JobKeyIsNotLeadKey(jobId, leadId);
    ReachedKeepsOthers(st, jobId, Synthesizing);
    ReadBack(reached, LeadKey(leadId), rec);
    FinishKeepsLead(HSet(reached, LeadKey(leadId), rec, map[]), jobId, leadId);
  }

  /** A successful run stores exactly the synthesized fields under `leads:{id}` (merged into
      whatever that hash held), and its reply is those fields plus the id. */
  lemma {:induction false} SuccessfulRunStoresLead(st: Store, lead: Lead, jobId: string, freshId: string)
    requires freshId != ""
    ensures var r := Run(st, lead, jobId, freshId, NoFault);
            var rec := LeadRecord(Synthesize(lead, Mine(lead), Validate(lead)));
            var id := LeadId(lead, freshId);
            && HGetAll(r.st, LeadKey(id)) == HGetAll(st, LeadKey(id)) + rec
            && r.out.Ok? && r.out.value.Keys == rec.Keys + {"id"} && r.out.value["id"] == Str(id)
            && (forall f :: f in rec ==> r.out.value[f] == rec[f])
  {
    var syn := Synthesize(lead, Mine(lead), Validate(lead));
    var rec := LeadRecord(syn);
    var id := LeadId(lead, freshId);
    var r := Run(st, lead, jobId, freshId, NoFault);
    assert r.st == Completed(st, jobId, id, rec) && r.out == Ok(rec["id" := Str(id)]);
    assert "id" !in rec;
    CompletedReply(st, jobId, id, rec, r);
  }

  /** A run that ended in `Completed` with the record plus the id as its reply: the record is
      merged into `leads:{id}` and the reply carries every field of it. */
  lemma CompletedReply(st: Store, jobId: string, id: string, rec: Hash, r: Step<Hash>)
    requires "id" !in rec
    requires r.st == Completed(st, jobId, id, rec) && r.out == Ok(rec["id" := Str(id)])
    ensures HGetAll(r.st, LeadKey(id)) == HGetAll(st, LeadKey(id)) + rec
    ensures r.out.Ok? && r.out.value.Keys == rec.Keys + {"id"} && r.out.value["id"] == Str(id)
    ensures forall f :: f in rec ==> r.out.value[f] == rec[f]
  {
    CompletedStoresLead(st, jobId, id, rec);
  }

  /** A run that raises writes no lead record: every `leads:*` hash is as it was. */
  lemma {:induction false} NoLeadRecordOnFailure(st: Store, lead: Lead, jobId: string, freshId: string, fault: Fault, leadId: string)
    requires freshId != "" && fault.FailAt?
    ensures HGetAll(Run(st, lead, jobId, freshId, fault).st, LeadKey(leadId)) == HGetAll(st, LeadKey(leadId))
  {
    JobKeyIsNotLeadKey(jobId, leadId);
    ReachedKeepsOthers(st, jobId, fault.stage);
  }

  /** The two stage statuses: both snapshots published in order, progress left at 0.5, the
      job's other fields kept. */
  lemma StagedStatuses(st: Store, jobId: string)
    requires jobId != ""
    ensures var s := Reached(st, jobId, Synthesizing);
            && Pending(s, JobEventsChannel(jobId)) ==
               Pending(st, JobEventsChannel(jobId)) + [Snapshot("mining", Some(0.2), ""), Snapshot("validating", Some(0.5), "")]
            && HGetAll(s, JobKey(jobId)) ==
               HGetAll(st, JobKey(jobId)) + StatusMapping("mining", Some(0.2), "") + StatusMapping("validating", Some(0.5), "")
  {
  }

  /** The job bookkeeping: the lead id pushed, then `complete` published and merged. */
  lemma FinishStatuses(s: Store, jobId: string, leadId: string)
    requires jobId != ""
    ensures Pending(Finish(s, jobId, leadId), JobEventsChannel(jobId)) ==
            Pending(s, JobEventsChannel(jobId)) + [Snapshot("complete", Some(1.0), "")]
    ensures HGetAll(Finish(s, jobId, leadId), JobKey(jobId)) == HGetAll(s, JobKey(jobId)) + StatusMapping("complete", Some(1.0), "")
    ensures ListAt(Finish(s, jobId, leadId), JobLeadsKey(jobId)) == [Str(leadId)] + ListAt(s, JobLeadsKey(jobId))
  {
  }

  /** Writing the lead record leaves the job's hash, lists and channels alone. */
  lemma LeadWriteKeepsJob(s: Store, jobId: string, leadId: string, rec: Hash)
    ensures Pending(HSet(s, LeadKey(leadId), rec, map[]), JobEventsChannel(jobId)) == Pending(s, JobEventsChannel(jobId))
    ensures HGetAll(HSet(s, LeadKey(leadId), rec, map[]), JobKey(jobId)) == HGetAll(s, JobKey(jobId))
    ensures ListAt(HSet(s, LeadKey(leadId), rec, map[]), JobLeadsKey(jobId)) == ListAt(s, JobLeadsKey(jobId))
  {
    JobKeyIsNotLeadKey(jobId, leadId);
  }

  lemma CompletedStatuses(st: Store, jobId: string, leadId: string, rec: Hash)
    requires jobId != ""
    ensures var r := Completed(st, jobId, leadId, rec);
            && Pending(r, JobEventsChannel(jobId)) == Pending(st, JobEventsChannel(jobId)) + SuccessEvents()
            && HGetAll(r, JobKey(jobId)) ==
               HGetAll(st, JobKey(jobId)) + StatusMapping("mining", Some(0.2), "") +
               StatusMapping("validating", Some(0.5), "") + StatusMapping("complete", Some(1.0), "")
            && ListAt(r, JobLeadsKey(jobId)) == [Str(leadId)] + ListAt(st, JobLeadsKey(jobId))
  {
    var s2 := Reached(st, jobId, Synthesizing);
    var s3 := HSet(s2, LeadKey(leadId), rec, map[]);
    var r := Finish(s3, jobId, leadId);
    var events := JobEventsChannel(jobId);
    var before := Pending(st, events);
    assert Pending(s2, events) == before + [Snapshot("mining", Some(0.2), ""), Snapshot("validating", Some(0.5), "")]
        && HGetAll(s2, JobKey(jobId)) ==
           HGetAll(st, JobKey(jobId)) + StatusMapping("mining", Some(0.2), "") + StatusMapping("validating", Some(0.5), "") by {
      StagedStatuses(st, jobId);
    }
    assert ListAt(s2, JobLeadsKey(jobId)) == ListAt(st, JobLeadsKey(jobId)) by {
      ReachedKeepsOthers(st, jobId, Synthesizing);
    }
    assert Pending(s3, events) == Pending(s2, events) && HGetAll(s3, JobKey(jobId)) == HGetAll(s2, JobKey(jobId))
        && ListAt(s3, JobLeadsKey(jobId)) == ListAt(s2, JobLeadsKey(jobId)) by {
      LeadWriteKeepsJob(s2, jobId, leadId, rec);
    }
    assert Pending(r, events) == Pending(s3, events) + [Snapshot("complete", Some(1.0), "")]
        && HGetAll(r, JobKey(jobId)) == HGetAll(s3, JobKey(jobId)) + StatusMapping("complete", Some(1.0), "")
        && ListAt(r, JobLeadsKey(jobId)) == [Str(leadId)] + ListAt(s3, JobLeadsKey(jobId)) by {
      FinishStatuses(s3, jobId, leadId);
    }
    AppendTwoThenOne(before, Snapshot("mining", Some(0.2), ""), Snapshot("validating", Some(0.5), ""),
                     Snapshot("complete", Some(1.0), ""));
  }

  lemma AppendTwoThenOne<T>(s: seq<T>, a: T, b: T, c: T)
    ensures s + [a, b] + [c] == s + [a, b, c]
  {
  }

  /** With a job, a successful run publishes `mining` (0.2), `validating` (0.5) and
      `complete` (1.0) in that order and nothing else (no `synthesizing`); the job ends
      `complete` at 1.0 with its other fields kept, and the lead id is at the head of the
      job's lead list. */
  lemma {:induction false} SuccessfulRunStatuses(st: Store, lead: Lead, jobId: string, freshId: string)
    requires freshId != "" && jobId != ""
    ensures var r := Run(st, lead, jobId, freshId, NoFault);
            && Pending(r.st, JobEventsChannel(jobId)) == Pending(st, JobEventsChannel(jobId)) + SuccessEvents()
            && HGetAll(r.st, JobKey(jobId))["status"] == Str("complete")
            && HGetAll(r.st, JobKey(jobId))["progress"] == Float(1.0)
            && (forall f :: f in HGetAll(st, JobKey(jobId)) && f != "status" && f != "progress" ==>
                  f in HGetAll(r.st, JobKey(jobId)) && HGetAll(r.st, JobKey(jobId))[f] == HGetAll(st, JobKey(jobId))[f])
            && ListAt(r.st, JobLeadsKey(jobId)) == [Str(LeadId(lead, freshId))] + ListAt(st, JobLeadsKey(jobId))
  {
    var rec := LeadRecord(Synthesize(lead, Mine(lead), Validate(lead)));
    CompletedStatuses(st, jobId, LeadId(lead, freshId), rec);
    StatusesMerged(HGetAll(st, JobKey(jobId)));
  }

  /** Merging the three success mappings into a job hash leaves it `complete` at 1.0, with
      every field other than `status` and `progress` as it was. */
  lemma StatusesMerged(h: Hash)
    ensures var m := h + StatusMapping("mining", Some(0.2), "") + StatusMapping("validating", Some(0.5), "") +
                     StatusMapping("complete", Some(1.0), "");
            && m["status"] == Str("complete") && m["progress"] == Float(1.0)
            && (forall f :: f in h && f != "status" && f != "progress" ==> f in m && m[f] == h[f])
  {
    var a := StatusMapping("mining", Some(0.2), "");
    var b := StatusMapping("validating", Some(0.5), "");
    var c := StatusMapping("complete", Some(1.0), "");
    assert forall f :: f in a || f in b || f in c ==> f == "status" || f == "progress";
  }

  /** With a job, a run that raises publishes `mining`, then `validating` if the miner
      returned, then `failed`; the job ends `failed`, with the message as its error when the
      message is non-empty, and the progress of the last stage reached. */
  lemma {:induction false} FailedRunStatuses(st: Store, lead: Lead, jobId: string, freshId: string, stage: Stage, msg: string)
    requires freshId != "" && jobId != ""
    ensures var r := Run(st, lead, jobId, freshId, FailAt(stage, msg));
            var reached := if stage == Mining then [Snapshot("mining", Some(0.2), "")]
                           else [Snapshot("mining", Some(0.2), ""), Snapshot("validating", Some(0.5), "")];
            && Pending(r.st, JobEventsChannel(jobId)) ==
               Pending(st, JobEventsChannel(jobId)) + reached + [Snapshot("failed", None, msg)]
            && HGetAll(r.st, JobKey(jobId))["status"] == Str("failed")
            && HGetAll(r.st, JobKey(jobId))["progress"] == Float(if stage == Mining then 0.2 else 0.5)
            && (msg != "" ==> HGetAll(r.st, JobKey(jobId))["error"] == Str(msg))
  {
    var before := Reached(st, jobId, stage);
    if stage != Mining {
      StagedStatuses(st, jobId);
    }
    var after := Status(before, jobId, "failed", None, msg);
    assert HGetAll(after, JobKey(jobId)) == HGetAll(before, JobKey(jobId)) + StatusMapping("failed", None, msg);
    assert "progress" !in StatusMapping("failed", None, msg);
    assert HGetAll(before, JobKey(jobId))["progress"] == Float(if stage == Mining then 0.2 else 0.5);
  }

  /** Without a job, no job hash, list or event channel is touched; only the lead record is
      written, and only when the run succeeds. */
  lemma {:induction false} NoJobTouchesOnlyTheLead(st: Store, lead: Lead, freshId: string, fault: Fault)
    requires freshId != ""
    ensures var r := Run(st, lead, "", freshId, fault);
            && r.st.lists == st.lists && r.st.channels == st.channels && r.st.strings == st.strings
            && (forall n :: n != LeadKey(LeadId(lead, freshId)) ==> HGetAll(r.st, n) == HGetAll(st, n))
            && (fault.FailAt? ==> r.st == st)
  {
  }

  lemma JobKeyIsNotLeadKey(jobId: string, leadId: string)
    ensures JobKey(jobId) != LeadKey(leadId)
  {
    assert JobKey(jobId)[0] == 'j';
    assert LeadKey(leadId)[0] == 'l';
  }
}
