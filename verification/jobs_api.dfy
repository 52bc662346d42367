/** The jobs endpoints: `enqueue` (with the inline fallback that runs every lead through the
    pipeline), `status`, the paginated `leads` listing and the bounded event stream. */
module JobsApi {
  import opened Results
  import opened Seqs
  import opened Text
  import opened Valkey
  import opened Agents
  import opened Pipeline

  const NoLeads: string := "No leads provided"
  const JobNotFound: string := "job not found"
  const LeadPattern: string := "leads:*"

  /** The stream polls the job at most this many times. */
  const MaxPolls: nat := 120

  /** The body of the 500 reply the server sends when an endpoint raises an exception that
      no handler catches. */
  const InternalServerError: string := "Internal Server Error"

  /** What `AgentPipeline(workspace=...)` raises: the constructor takes `workspace_id`. */
  const WorkspaceKeywordError: string := "AgentPipeline.__init__() got an unexpected keyword argument 'workspace'"

  // ---------------------------------------------------------------- process_lead

  /** The job's hash holds `status` with the given text. */
  predicate JobIs(st: Store, jobId: string, status: string) {
    var h := HGetAll(st, JobKey(jobId));
    "status" in h && h["status"] == Str(status)
  }

  /** What handling one lead does to the store, given the lead, the job id, a fresh id for
      the lead and where (if anywhere) the pipeline raises. */
  type Processor = (Store, Lead, string, string, Fault) --> Step<Hash>

  /** `process_lead` as written: building the pipeline with the keyword `workspace` raises
      before any command runs, whatever the lead. */
  function ProcessLeadAsWritten(st: Store, lead: Lead, jobId: string, freshId: string, fault: Fault): (r: Step<Hash>)
    ensures r == Step(st, Err(WorkspaceKeywordError))
  {
    Step(st, Err(WorkspaceKeywordError))
  }

  /** `process_lead` with the pipeline built as its constructor expects: runs the pipeline,
      then writes `complete` (1.0) once more when there is a job. */
  function ProcessLead(st: Store, lead: Lead, jobId: string, freshId: string, fault: Fault): (r: Step<Hash>)
    requires freshId != ""
    ensures r.out.Ok? <==> fault == NoFault
    ensures fault.FailAt? ==> r == Run(st, lead, jobId, freshId, fault)
    ensures r.out.Ok? ==> r.out.value == Run(st, lead, jobId, freshId, fault).out.value
  {
    var run := Run(st, lead, jobId, freshId, fault);
    if run.out.Err? then run else Step(Status(run.st, jobId, "complete", Some(1.0), ""), run.out)
  }

  /** The snapshots one successfully processed lead publishes: the pipeline's three, then
      `complete` again from `process_lead`. */
  function LeadEvents(): seq<Value> {
    SuccessEvents() + [Snapshot("complete", Some(1.0), "")]
  }

  lemma AppendAssoc<T>(a: seq<T>, b: seq<T>, c: seq<T>)
    ensures a + b + c == a + (b + c)
  {
  }

  /** The closing status write of `process_lead`: one more snapshot, the lists untouched. */
  lemma CompleteAgain(s: Store, jobId: string)
    requires jobId != ""
    ensures var r := Status(s, jobId, "complete", Some(1.0), "");
            && Pending(r, JobEventsChannel(jobId)) == Pending(s, JobEventsChannel(jobId)) + [Snapshot("complete", Some(1.0), "")]
            && ListAt(r, JobLeadsKey(jobId)) == ListAt(s, JobLeadsKey(jobId))
            && JobIs(r, jobId, "complete")
            && HGetAll(s, JobKey(jobId)).Keys <= HGetAll(r, JobKey(jobId)).Keys
  {
  }

  /** One lead processed without a fault: its events published, its id pushed on the job's
      lead list, the job `complete`. */
  lemma {:induction false} ProcessLeadEffects(st: Store, lead: Lead, jobId: string, freshId: string)
    requires freshId != "" && jobId != ""
    ensures var r := ProcessLead(st, lead, jobId, freshId, NoFault);
            && Pending(r.st, JobEventsChannel(jobId)) == Pending(st, JobEventsChannel(jobId)) + LeadEvents()
            && ListAt(r.st, JobLeadsKey(jobId)) == [Str(LeadId(lead, freshId))] + ListAt(st, JobLeadsKey(jobId))
            && JobIs(r.st, jobId, "complete")
  {
    var run := Run(st, lead, jobId, freshId, NoFault);
    var r := ProcessLead(st, lead, jobId, freshId, NoFault);
    assert r.st == Status(run.st, jobId, "complete", Some(1.0), "");
    SuccessfulRunStatuses(st, lead, jobId, freshId);
    CompleteAgain(run.st, jobId);
    var before := Pending(st, JobEventsChannel(jobId));
    assert Pending(r.st, JobEventsChannel(jobId)) == before + SuccessEvents() + [Snapshot("complete", Some(1.0), "")];
    AppendAssoc(before, SuccessEvents(), [Snapshot("complete", Some(1.0), "")]);
  }

  /** A processed lead never removes a field from the job's hash: statuses are merged, other
      writes touch other keys. */
  lemma ProcessLeadKeepsFields(st: Store, lead: Lead, jobId: string, freshId: string, fault: Fault)
    requires freshId != "" && jobId != ""
    ensures HGetAll(st, JobKey(jobId)).Keys <= HGetAll(ProcessLead(st, lead, jobId, freshId, fault).st, JobKey(jobId)).Keys
  {
    if fault.FailAt? {
      FailedLeadKeepsFields(st, lead, jobId, freshId, fault);
    } else {
      CompletedLeadKeepsFields(st, lead, jobId, freshId);
    }
  }

  lemma FailedLeadKeepsFields(st: Store, lead: Lead, jobId: string, freshId: string, fault: Fault)
    requires freshId != "" && jobId != "" && fault.FailAt?
    ensures HGetAll(st, JobKey(jobId)).Keys <= HGetAll(ProcessLead(st, lead, jobId, freshId, fault).st, JobKey(jobId)).Keys
  {
    var before := Reached(st, jobId, fault.stage);
    assert HGetAll(st, JobKey(jobId)).Keys <= HGetAll(before, JobKey(jobId)).Keys;
  }

  lemma CompletedLeadKeepsFields(st: Store, lead: Lead, jobId: string, freshId: string)
    requires freshId != "" && jobId != ""
    ensures HGetAll(st, JobKey(jobId)).Keys <= HGetAll(ProcessLead(st, lead, jobId, freshId, NoFault).st, JobKey(jobId)).Keys
  {
    var run := Run(st, lead, jobId, freshId, NoFault);
    var a := HGetAll(st, JobKey(jobId));
    var b := HGetAll(run.st, JobKey(jobId));
    assert a.Keys <= b.Keys by {
      SuccessfulRunStatuses(st, lead, jobId, freshId);
      KeptOutsideStatus(a, b);
    }
    var r := ProcessLead(st, lead, jobId, freshId, NoFault);
    assert r.st == Status(run.st, jobId, "complete", Some(1.0), "");
    assert b.Keys <= HGetAll(r.st, JobKey(jobId)).Keys by {
      CompleteAgain(run.st, jobId);
    }
  }

  lemma KeptOutsideStatus(a: Hash, b: Hash)
    requires forall f :: f in a && f != "status" && f != "progress" ==> f in b
    requires "status" in b && "progress" in b
    ensures a.Keys <= b.Keys
  {
  }

  /** A lead that raises leaves the job `failed`. */
  lemma {:induction false} ProcessLeadFailureMarksJob(st: Store, lead: Lead, jobId: string, freshId: string, fault: Fault)
    requires freshId != "" && jobId != "" && fault.FailAt?
    ensures JobIs(ProcessLead(st, lead, jobId, freshId, fault).st, jobId, "failed")
  {
    FailedRunStatuses(st, lead, jobId, freshId, fault.stage, fault.msg);
  }

  // ---------------------------------------------------------------- what a processor promises

  /** The processor can be called on every lead with a non-empty fresh id. */
  ghost predicate Accepts(process: Processor, jobId: string) {
    forall s, l, id, f :: id != "" ==> process.requires(s, l, jobId, id, f)
  }

  /** It returns exactly when there is no fault, and raises the fault's message otherwise. */
  ghost predicate RaisesAtFaults(process: Processor, jobId: string)
    requires Accepts(process, jobId)
  {
    forall s, l, id, f :: id != "" ==>
      && (process(s, l, jobId, id, f).out.Ok? <==> f == NoFault)
      && (f.FailAt? ==> process(s, l, jobId, id, f).out == Err(f.msg))
  }

  /** It never removes a field from the job's hash, and one that raises leaves the job
      `failed`. */
  ghost predicate KeepsJobFields(process: Processor, jobId: string)
    requires Accepts(process, jobId)
  {
    forall s, l, id, f :: id != "" ==>
      && HGetAll(s, JobKey(jobId)).Keys <= HGetAll(process(s, l, jobId, id, f).st, JobKey(jobId)).Keys
      && (jobId != "" && f.FailAt? ==> JobIs(process(s, l, jobId, id, f).st, jobId, "failed"))
  }

  /** Without a fault, it publishes the four snapshots of a lead, pushes the lead's id and
      leaves the job `complete`. */
  ghost predicate CompletesLeads(process: Processor, jobId: string)
    requires Accepts(process, jobId)
  {
    forall s, l, id :: id != "" ==>
      && Pending(process(s, l, jobId, id, NoFault).st, JobEventsChannel(jobId)) == Pending(s, JobEventsChannel(jobId)) + LeadEvents()
      && ListAt(process(s, l, jobId, id, NoFault).st, JobLeadsKey(jobId)) == [Str(LeadId(l, id))] + ListAt(s, JobLeadsKey(jobId))
      && JobIs(process(s, l, jobId, id, NoFault).st, jobId, "complete")
  }

  /** `process_lead`, with the pipeline built as intended, keeps all three promises. */
  lemma ProcessLeadPromises(jobId: string)
    requires jobId != ""
    ensures Accepts(ProcessLead, jobId)
    ensures RaisesAtFaults(ProcessLead, jobId) && KeepsJobFields(ProcessLead, jobId) && CompletesLeads(ProcessLead, jobId)
  {
    ProcessLeadKeepsJobFields(jobId);
    ProcessLeadCompletesLeads(jobId);
  }

  lemma ProcessLeadKeepsJobFields(jobId: string)
    requires jobId != ""
    ensures Accepts(ProcessLead, jobId) && KeepsJobFields(ProcessLead, jobId)
  {
    forall s, l, id, f | id != ""
      ensures HGetAll(s, JobKey(jobId)).Keys <= HGetAll(ProcessLead(s, l, jobId, id, f).st, JobKey(jobId)).Keys
      ensures f.FailAt? ==> JobIs(ProcessLead(s, l, jobId, id, f).st, jobId, "failed")
    {
      ProcessLeadKeepsFields(s, l, jobId, id, f);
      if f.FailAt? {
        ProcessLeadFailureMarksJob(s, l, jobId, id, f);
      }
    }
  }

  lemma ProcessLeadCompletesLeads(jobId: string)
    requires jobId != ""
    ensures Accepts(ProcessLead, jobId) && CompletesLeads(ProcessLead, jobId)
  {
    forall s, l, id | id != ""
      ensures var r := ProcessLead(s, l, jobId, id, NoFault);
              && Pending(r.st, JobEventsChannel(jobId)) == Pending(s, JobEventsChannel(jobId)) + LeadEvents()
              && ListAt(r.st, JobLeadsKey(jobId)) == [Str(LeadId(l, id))] + ListAt(s, JobLeadsKey(jobId))
              && JobIs(r.st, jobId, "complete")
    {
      ProcessLeadEffects(s, l, jobId, id);
    }
  }

  // ---------------------------------------------------------------- enqueue

  predicate FreshIds(freshIds: seq<string>) {
    forall i :: 0 <= i < |freshIds| ==> freshIds[i] != ""
  }

  predicate NoFaults(faults: seq<Fault>) {
    forall i :: 0 <= i < |faults| ==> faults[i] == NoFault
  }

  /** The lead ids the runs use, in lead order. */
  function LeadIds(leads: seq<Lead>, freshIds: seq<string>): (ids: seq<string>)
    requires |freshIds| == |leads| && FreshIds(freshIds)
    ensures |ids| == |leads|
    ensures forall i :: 0 <= i < |ids| ==> ids[i] == LeadId(leads[i], freshIds[i])
  {
    seq(|leads|, i requires 0 <= i < |leads| => LeadId(leads[i], freshIds[i]))
  }

  /** The sequence back to front. */
  function Reverse<T>(s: seq<T>): (r: seq<T>)
    ensures |r| == |s|
    ensures forall i :: 0 <= i < |s| ==> r[i] == s[|s| - 1 - i]
  {
    if |s| == 0 then []
    else
      var rest := Reverse(s[1..]);
      assert forall i :: 0 <= i < |s| - 1 ==> rest[i] == s[1..][|s| - 2 - i] == s[|s| - 1 - i];
      rest + [s[0]]
  }

  /** `n` copies of `s`, one after another. */
  function Repeat<T>(s: seq<T>, n: nat): (r: seq<T>)
    ensures |r| == n * |s|
  {
    if n == 0 then [] else s + Repeat(s, n - 1)
  }

  /** The copies: `Repeat(s, n)` starts with `s` and repeats with period `|s|`. */
  lemma {:induction false} RepeatContents<T>(s: seq<T>, n: nat)
    ensures n > 0 ==> Repeat(s, n)[..|s|] == s
    ensures forall i :: |s| <= i < |Repeat(s, n)| ==> Repeat(s, n)[i] == Repeat(s, n)[i - |s|]
  {
    if n > 0 {
      var r, rest := Repeat(s, n), Repeat(s, n - 1);
      RepeatContents(s, n - 1);
      assert r == s + rest;
      assert forall i :: |s| <= i < |r| ==> r[i] == rest[i - |s|];
    }
  }

  /** The ids as the text values the store holds. */
  function Texts(ids: seq<string>): (r: seq<Value>)
    ensures |r| == |ids|
    ensures forall i :: 0 <= i < |ids| ==> r[i] == Str(ids[i])
  {
    if |ids| == 0 then [] else [Str(ids[0])] + Texts(ids[1..])
  }

  lemma TextsAppend(a: seq<string>, b: seq<string>)
    ensures Texts(a + b) == Texts(a) + Texts(b)
  {
    var l, r := Texts(a + b), Texts(a) + Texts(b);
    forall i | 0 <= i < |l|
      ensures l[i] == r[i]
    {
      if i < |a| {
        assert (a + b)[i] == a[i];
      } else {
        assert (a + b)[i] == b[i - |a|];
      }
    }
  }

  /** The inline loop: the leads in list order, each through `process`, stopping at the first
      one that raises. */
  function ProcessAll(st: Store, leads: seq<Lead>, jobId: string, freshIds: seq<string>, faults: seq<Fault>,
                      process: Processor): (r: Step<seq<Hash>>)
    requires |freshIds| == |leads| && |faults| == |leads| && FreshIds(freshIds) && Accepts(process, jobId)
    ensures r.out.Ok? ==> |r.out.value| == |leads|
    ensures |leads| > 0 && r.out.Ok? ==> process(st, leads[0], jobId, freshIds[0], faults[0]).out.Ok?
    decreases |leads|
  {
    if |leads| == 0 then Step(st, Ok([]))
    else
      var first := process(st, leads[0], jobId, freshIds[0], faults[0]);
      if first.out.Err? then Step(first.st, Err(first.out.msg))
      else
        var rest := ProcessAll(first.st, leads[1..], jobId, freshIds[1..], faults[1..], process);
        if rest.out.Err? then Step(rest.st, Err(rest.out.msg))
        else Step(rest.st, Ok([first.out.value] + rest.out.value))
  }

  lemma NoFaultsTail(faults: seq<Fault>)
    requires |faults| > 0
    ensures NoFaults(faults) <==> faults[0] == NoFault && NoFaults(faults[1..])
  {
    assert forall i :: 1 <= i < |faults| ==> faults[i] == faults[1..][i - 1];
  }

  /** The inline loop succeeds exactly when no lead raises; otherwise it reports the message
      of the first lead that raised and, with a job, leaves the job `failed`. */
  lemma {:induction false} ProcessAllStopsAtFirstFault(st: Store, leads: seq<Lead>, jobId: string, freshIds: seq<string>,
                                                       faults: seq<Fault>, process: Processor)
    requires |freshIds| == |leads| && |faults| == |leads| && FreshIds(freshIds) && Accepts(process, jobId)
    requires RaisesAtFaults(process, jobId) && KeepsJobFields(process, jobId)
    ensures var r := ProcessAll(st, leads, jobId, freshIds, faults, process);
            && (r.out.Ok? <==> NoFaults(faults))
            && (r.out.Err? ==> exists i :: 0 <= i < |faults| && faults[i].FailAt? && r.out.msg == faults[i].msg && NoFaults(faults[..i]))
            && (r.out.Err? && jobId != "" ==> JobIs(r.st, jobId, "failed"))
    decreases |leads|
  {
    if |leads| > 0 {
      NoFaultsTail(faults);
      var first := process(st, leads[0], jobId, freshIds[0], faults[0]);
      if first.out.Ok? {
        ProcessAllStopsAtFirstFault(first.st, leads[1..], jobId, freshIds[1..], faults[1..], process);
        var r := ProcessAll(st, leads, jobId, freshIds, faults, process);
        if r.out.Err? {
          var i :| 0 <= i < |faults[1..]| && faults[1..][i].FailAt? && r.out.msg == faults[1..][i].msg && NoFaults(faults[1..][..i]);
          assert faults[..i + 1] == [faults[0]] + faults[1..][..i];
          assert faults[i + 1].FailAt? && NoFaults(faults[..i + 1]);
        }
      } else {
        assert NoFaults(faults[..0]);
      }
    }
  }

  /** With a job and no faults, the inline loop publishes each lead's four snapshots in turn
      and pushes every lead id on the job's lead list, so the list reads the ids back to
      front; the job ends `complete`. */
  lemma {:induction false} ProcessAllEffects(st: Store, leads: seq<Lead>, jobId: string, freshIds: seq<string>,
                                             faults: seq<Fault>, process: Processor)
    requires |freshIds| == |leads| && |faults| == |leads| && FreshIds(freshIds) && Accepts(process, jobId)
    requires jobId != "" && NoFaults(faults) && RaisesAtFaults(process, jobId) && CompletesLeads(process, jobId)
    ensures var r := ProcessAll(st, leads, jobId, freshIds, faults, process);
            && r.out.Ok?
            && ListAt(r.st, JobLeadsKey(jobId)) == Texts(Reverse(LeadIds(leads, freshIds))) + ListAt(st, JobLeadsKey(jobId))
            && Pending(r.st, JobEventsChannel(jobId)) == Pending(st, JobEventsChannel(jobId)) + Repeat(LeadEvents(), |leads|)
            && (|leads| > 0 ==> JobIs(r.st, jobId, "complete"))
    decreases |leads|
  {
    if |leads| > 0 {
      NoFaultsTail(faults);
      var first := process(st, leads[0], jobId, freshIds[0], NoFault);
      var rest := ProcessAll(first.st, leads[1..], jobId, freshIds[1..], faults[1..], process);
      ProcessAllEffects(first.st, leads[1..], jobId, freshIds[1..], faults[1..], process);
      var r := ProcessAll(st, leads, jobId, freshIds, faults, process);
      assert r.st == rest.st && r.out.Ok?;
      var ids := LeadIds(leads, freshIds);
      var list := ListAt(st, JobLeadsKey(jobId));
      assert ListAt(first.st, JobLeadsKey(jobId)) == [Str(ids[0])] + list;
      assert ListAt(r.st, JobLeadsKey(jobId)) == Texts(Reverse(ids)) + list by {
        assert LeadIds(leads[1..], freshIds[1..]) == ids[1..];
        TextsReverseCons(ids);
        AppendAssoc(Texts(Reverse(ids[1..])), [Str(ids[0])], list);
      }
      var events := Pending(st, JobEventsChannel(jobId));
      assert Pending(first.st, JobEventsChannel(jobId)) == events + LeadEvents();
      assert Pending(r.st, JobEventsChannel(jobId)) == events + Repeat(LeadEvents(), |leads|) by {
        AppendAssoc(events, LeadEvents(), Repeat(LeadEvents(), |leads| - 1));
      }
      if |leads| == 1 {
        assert rest.st == first.st;
      }
    }
  }

  lemma TextsReverseCons(ids: seq<string>)
    requires |ids| > 0
    ensures Texts(Reverse(ids)) == Texts(Reverse(ids[1..])) + [Str(ids[0])]
  {
    TextsAppend(Reverse(ids[1..]), [ids[0]]);
  }

  /** The inline loop never removes a field from the job's hash. */
  lemma {:induction false} ProcessAllKeepsJobFields(st: Store, leads: seq<Lead>, jobId: string, freshIds: seq<string>,
                                                    faults: seq<Fault>, process: Processor)
    requires |freshIds| == |leads| && |faults| == |leads| && FreshIds(freshIds) && Accepts(process, jobId)
    requires KeepsJobFields(process, jobId)
    ensures HGetAll(st, JobKey(jobId)).Keys <= HGetAll(ProcessAll(st, leads, jobId, freshIds, faults, process).st, JobKey(jobId)).Keys
    decreases |leads|
  {
    if |leads| > 0 {
      var first := process(st, leads[0], jobId, freshIds[0], faults[0]);
      if first.out.Ok? {
        ProcessAllKeepsJobFields(first.st, leads[1..], jobId, freshIds[1..], faults[1..], process);
      }
    }
  }

  /** `enqueue` handing each lead to `process`: no leads is a 400 with nothing written;
      otherwise the job starts `queued` at 0.0. With a task queue the leads are handed to it
      and the reply is the job id; inline, they are processed in order and a lead that raises
      ends the request with the server's plain 500 (the exception's message is not sent). */
  function EnqueueWith(st: Store, leads: seq<Lead>, jobId: string, inline: bool,
                       freshIds: seq<string>, faults: seq<Fault>, process: Processor): (r: (Store, Response<string>))
    requires jobId != "" && |freshIds| == |leads| && |faults| == |leads| && FreshIds(freshIds) && Accepts(process, jobId)
    ensures |leads| == 0 ==> r == (st, Refused(400, NoLeads))
    ensures |leads| > 0 && !inline ==> r == (SetJobStatus(st, jobId, "queued", Some(0.0), "", true), Reply(jobId))
    ensures |leads| > 0 && inline ==>
              var run := ProcessAll(SetJobStatus(st, jobId, "queued", Some(0.0), "", true), leads, jobId, freshIds, faults, process);
              && r.0 == run.st
              && (r.1 == Reply(jobId) <==> run.out.Ok?)
              && (run.out.Err? ==> r.1 == Refused(500, InternalServerError))
  {
    if |leads| == 0 then (st, Refused(400, NoLeads))
    else
      var queued := SetJobStatus(st, jobId, "queued", Some(0.0), "", true);
      if !inline then (queued, Reply(jobId))
      else
        var run := ProcessAll(queued, leads, jobId, freshIds, faults, process);
        if run.out.Ok? then (run.st, Reply(jobId)) else (run.st, Refused(500, InternalServerError))
  }

  /** `enqueue` with `process_lead` as written. */
  function EnqueueAsWritten(st: Store, leads: seq<Lead>, jobId: string, inline: bool,
                            freshIds: seq<string>, faults: seq<Fault>): (r: (Store, Response<string>))
    requires jobId != "" && |freshIds| == |leads| && |faults| == |leads| && FreshIds(freshIds)
    ensures |leads| == 0 ==> r == (st, Refused(400, NoLeads))
    ensures |leads| > 0 && inline ==> r == (SetJobStatus(st, jobId, "queued", Some(0.0), "", true), Refused(500, InternalServerError))
  {
    EnqueueWith(st, leads, jobId, inline, freshIds, faults, ProcessLeadAsWritten)
  }

  /** `enqueue` with `process_lead` building the pipeline as intended. */
  function Enqueue(st: Store, leads: seq<Lead>, jobId: string, inline: bool,
                   freshIds: seq<string>, faults: seq<Fault>): (r: (Store, Response<string>))
    requires jobId != "" && |freshIds| == |leads| && |faults| == |leads| && FreshIds(freshIds)
    ensures |leads| == 0 ==> r == (st, Refused(400, NoLeads))
    ensures |leads| > 0 && inline ==> (r.1 == Reply(jobId) <==> NoFaults(faults))
    ensures |leads| > 0 && inline && !NoFaults(faults) ==> r.1.Refused? && r.1.code == 500
  {
    ProcessLeadPromises(jobId);
    if |leads| > 0 && inline then
      ProcessAllStopsAtFirstFault(SetJobStatus(st, jobId, "queued", Some(0.0), "", true), leads, jobId, freshIds, faults, ProcessLead);
      EnqueueWith(st, leads, jobId, inline, freshIds, faults, ProcessLead)
    else
      EnqueueWith(st, leads, jobId, inline, freshIds, faults, ProcessLead)
  }

  /** The inline path as written never completes a job: whatever the leads, the first lead
      raises the constructor's `TypeError`, the request ends in a 500, the job's status
      stays `queued`, and no `leads:*` record is written. */
  lemma InlineEnqueueAsWrittenStrandsJob(st: Store, leads: seq<Lead>, jobId: string, freshIds: seq<string>,
                                         faults: seq<Fault>, leadId: string)
    requires jobId != "" && |leads| > 0 && |freshIds| == |leads| && |faults| == |leads| && FreshIds(freshIds)
    ensures var r := EnqueueAsWritten(st, leads, jobId, true, freshIds, faults);
            && ProcessAll(SetJobStatus(st, jobId, "queued", Some(0.0), "", true), leads, jobId, freshIds, faults,
                          ProcessLeadAsWritten).out == Err(WorkspaceKeywordError)
            && r.1 == Refused(500, InternalServerError)
            && JobIs(r.0, jobId, "queued")
            && HGetAll(r.0, LeadKey(leadId)) == HGetAll(st, LeadKey(leadId))
  {
    JobKeyIsNotLeadKey(jobId, leadId);
  }

  /** With the pipeline built as intended, an inline job whose leads all succeed answers with
      its id and ends `complete`: its events are `queued` followed by four snapshots per lead,
      and its lead list holds every lead id, most recent first. */
  lemma InlineEnqueueCompletes(st: Store, leads: seq<Lead>, jobId: string, freshIds: seq<string>, faults: seq<Fault>)
    requires jobId != "" && |leads| > 0 && |freshIds| == |leads| && FreshIds(freshIds)
    requires |faults| == |leads| && NoFaults(faults)
    ensures var r := Enqueue(st, leads, jobId, true, freshIds, faults);
            && r.1 == Reply(jobId)
            && JobIs(r.0, jobId, "complete")
            && Pending(r.0, JobEventsChannel(jobId)) ==
               Pending(st, JobEventsChannel(jobId)) + [Snapshot("queued", Some(0.0), "")] + Repeat(LeadEvents(), |leads|)
            && ListAt(r.0, JobLeadsKey(jobId)) == Texts(Reverse(LeadIds(leads, freshIds))) + ListAt(st, JobLeadsKey(jobId))
  {
    ProcessLeadPromises(jobId);
    var queued := SetJobStatus(st, jobId, "queued", Some(0.0), "", true);
    ProcessAllEffects(queued, leads, jobId, freshIds, faults, ProcessLead);
  }

  /** Job status is not monotone: in an inline job with two or more leads the snapshot right
      after the first lead's second `complete` is `mining` again, for the next lead. */
  lemma InlineStatusRevisitsMining(st: Store, leads: seq<Lead>, jobId: string, freshIds: seq<string>, faults: seq<Fault>)
    requires jobId != "" && |leads| >= 2 && |freshIds| == |leads| && FreshIds(freshIds)
    requires |faults| == |leads| && NoFaults(faults)
    ensures var events := Pending(Enqueue(st, leads, jobId, true, freshIds, faults).0, JobEventsChannel(jobId));
            var n := |Pending(st, JobEventsChannel(jobId))|;
            && |events| >= n + 6
            && events[n + 4] == Snapshot("complete", Some(1.0), "")
            && events[n + 5] == Snapshot("mining", Some(0.2), "")
  {
    InlineEnqueueCompletes(st, leads, jobId, freshIds, faults);
    var before := Pending(st, JobEventsChannel(jobId)) + [Snapshot("queued", Some(0.0), "")];
    var repeated := Repeat(LeadEvents(), |leads|);
    LeadEventsTwice(|leads|);
    assert (before + repeated)[|before| + 3] == repeated[3];
    assert (before + repeated)[|before| + 4] == repeated[4];
  }

  /** Two leads' events in a row: the first lead's last `complete`, then the next lead's
      `mining`. */
  lemma LeadEventsTwice(m: nat)
    requires m >= 2
    ensures |Repeat(LeadEvents(), m)| >= 5
    ensures Repeat(LeadEvents(), m)[3] == Snapshot("complete", Some(1.0), "")
    ensures Repeat(LeadEvents(), m)[4] == Snapshot("mining", Some(0.2), "")
  {
    var rest := Repeat(LeadEvents(), m - 2);
    assert Repeat(LeadEvents(), m) == LeadEvents() + (LeadEvents() + rest);
  }

  /** An enqueued job is always found by `status`, whichever path it took and whether or not
      a lead raised. */
  lemma EnqueuedJobIsFound(st: Store, leads: seq<Lead>, jobId: string, inline: bool,
                           freshIds: seq<string>, faults: seq<Fault>)
    requires jobId != "" && |leads| > 0 && |freshIds| == |leads| && |faults| == |leads| && FreshIds(freshIds)
    ensures JobStatus(Enqueue(st, leads, jobId, inline, freshIds, faults).0, jobId).Reply?
  {
    ProcessLeadPromises(jobId);
    var queued := SetJobStatus(st, jobId, "queued", Some(0.0), "", true);
    assert "status" in HGetAll(queued, JobKey(jobId));
    if inline {
      ProcessAllKeepsJobFields(queued, leads, jobId, freshIds, faults, ProcessLead);
    }
  }

  // ---------------------------------------------------------------- status

  /** `status`: the job's hash, decoded; a 404 when it is empty or absent. */
  function JobStatus(st: Store, jobId: string): (r: Response<Hash>)
    ensures r.Refused? <==> HGetAll(st, JobKey(jobId)) == map[]
    ensures r.Refused? ==> r == Refused(404, JobNotFound)
    ensures r.Reply? ==> r.body.Keys == HGetAll(st, JobKey(jobId)).Keys
    ensures r.Reply? ==> r.body == DecodeMap(HGetAll(st, JobKey(jobId)))
  {
    var data := HGetAll(st, JobKey(jobId));
    if data == map[] then Refused(404, JobNotFound) else Reply(DecodeMap(data))
  }

  // ---------------------------------------------------------------- leads

  /** Exactly one item per key with a non-empty hash, in key order: item `i` is the `i`-th
      such key's hash, decoded. */
  lemma {:induction false} RecordsOnePerKey(st: Store, keys: seq<string>)
    ensures var ks := Filter(keys, HoldsHash(st));
            && |Records(st, keys)| == |ks|
            && forall i :: 0 <= i < |ks| ==> Records(st, keys)[i] == DecodeMap(HGetAll(st, ks[i]))
    decreases |keys|
  {
    if |keys| > 0 {
      RecordsOnePerKey(st, keys[1..]);
      assert keys == [keys[0]] + keys[1..];
      FilterAppend([keys[0]], keys[1..], HoldsHash(st));
      FilterSingle(keys[0], HoldsHash(st));
    }
  }

  datatype LeadsPage = LeadsPage(items: seq<Hash>, page: int, size: int, total: nat)

  /** The decoded non-empty hashes of `keys`, in key order. */
  function Records(st: Store, keys: seq<string>): (r: seq<Hash>)
    ensures |r| <= |keys|
    ensures forall h :: h in r ==> h != map[]
    ensures forall k :: k in keys && HGetAll(st, k) != map[] ==> DecodeMap(HGetAll(st, k)) in r
    ensures forall h :: h in r ==> exists k :: k in keys && h == DecodeMap(HGetAll(st, k))
  {
    if |keys| == 0 then []
    else
      var rest := Records(st, keys[1..]);
      assert forall k :: k in keys[1..] ==> k in keys;
      assert forall k :: k in keys ==> k == keys[0] || k in keys[1..];
      var data := HGetAll(st, keys[0]);
      if data != map[] then
        assert DecodeMap(data).Keys == data.Keys;
        [DecodeMap(data)] + rest
      else rest
  }

  /** The distinct lead keys, first occurrences kept. */
  function LeadKeys(st: Store): seq<string> {
    Dedupe(Keys(st, LeadPattern))
  }

  /** The keys on page `page` of size `size`: Python's `keys[start:end + 1]` with
      `start = (page - 1) * size` and `end = start + size - 1`. */
  function PageKeys(keys: seq<string>, page: int, size: int): seq<string> {
    var start := (page - 1) * size;
    PySlice(keys, start, start + size)
  }

  /** `leads`: one page of lead records and the number of distinct lead keys. */
  function Leads(st: Store, page: int, size: int): (r: LeadsPage)
    ensures r.page == page && r.size == size
    ensures r.total == |LeadKeys(st)|
    ensures page >= 1 && size >= 0 ==> |r.items| <= size
    ensures forall h :: h in r.items ==> h != map[]
    ensures forall k :: k in PageKeys(LeadKeys(st), page, size) && HGetAll(st, k) != map[] ==>
              DecodeMap(HGetAll(st, k)) in r.items
    ensures forall h :: h in r.items ==>
              exists k :: k in PageKeys(LeadKeys(st), page, size) && IsPrefix("leads:", k) && h == DecodeMap(HGetAll(st, k))
  {
    var keys := LeadKeys(st);
    var sliced := PageKeys(keys, page, size);
    forall k | k in sliced
      ensures IsPrefix("leads:", k)
    {
      assert k in keys;
      assert FakeMatch(LeadPattern, k);
    }
    LeadsPage(Records(st, sliced), page, size, |keys|)
  }

  /** On a well-formed store the lead keys have no duplicates to drop: `total` counts the
      stored `leads:*` hashes. */
  lemma LeadsTotalCountsStoredLeads(st: Store, page: int, size: int)
    requires Valid(st)
    ensures Leads(st, page, size).total == |Keys(st, LeadPattern)|
    ensures forall k :: k in LeadKeys(st) <==> k in st.hashes && IsPrefix("leads:", k)
  {
    DedupeOfDistinct(Keys(st, LeadPattern));
    assert LeadPattern[..|LeadPattern| - 1] == "leads:";
  }

  /** Position `j` of page `page` is position `(page - 1) * size + j` of the key list. */
  lemma KeyOnPage(keys: seq<string>, page: int, size: int, j: int)
    requires page >= 1 && size >= 1 && 0 <= j < size && (page - 1) * size + j < |keys|
    ensures j < |PageKeys(keys, page, size)| && PageKeys(keys, page, size)[j] == keys[(page - 1) * size + j]
  {
    var start := (page - 1) * size;
    NonNegativeProduct(page - 1, size);
    SliceAt(keys, start, size, j);
  }

  lemma NonNegativeProduct(a: int, b: int)
    requires a >= 0 && b >= 0
    ensures a * b >= 0
  {
  }

  /** Position `j` of the slice `keys[start:start + size]`. */
  lemma SliceAt(keys: seq<string>, start: int, size: int, j: int)
    requires 0 <= start && 0 <= j < size && start + j < |keys|
    ensures j < |PySlice(keys, start, start + size)| && PySlice(keys, start, start + size)[j] == keys[start + j]
  {
    if start + size <= |keys| {
      assert PySlice(keys, start, start + size) == keys[start..start + size];
    } else {
      assert PySlice(keys, start, start + size) == keys[start..];
    }
  }

  /** Pages of a positive size tile the key list: the key at position `i` is on page
      `i / size + 1`, at position `i % size`. */
  lemma KeyIsOnItsPage(keys: seq<string>, i: int, size: int)
    requires 0 <= i < |keys| && size >= 1
    ensures var page := PageKeys(keys, i / size + 1, size);
            i % size < |page| && page[i % size] == keys[i]
  {
    var q := i / size;
    assert q >= 0;
    assert (q + 1 - 1) * size + i % size == i;
    KeyOnPage(keys, q + 1, size, i % size);
  }

  // ---------------------------------------------------------------- stream

  /** A snapshot that ends the stream. */
  predicate Terminal(h: Hash) {
    "status" in h && h["status"] in {Str("complete"), Str("failed"), Bytes("complete"), Bytes("failed")}
  }

  /** What the `i`-th poll of the job's hash reads; polls past the observed ones read an
      empty hash. */
  function Poll(polls: seq<Hash>, i: nat): Hash {
    if i < |polls| then polls[i] else map[]
  }

  /** The events of the polls `from`, `from + 1`, ... with `budget` polls left: one per
      non-empty read, ending right after a terminal one. */
  function Emitted(polls: seq<Hash>, from: nat, budget: nat): (r: seq<Hash>)
    ensures |r| <= budget
    ensures forall i :: 0 <= i < |r| ==> r[i] != map[]
    ensures forall i :: 0 <= i < |r| - 1 ==> !Terminal(r[i])
    decreases budget
  {
    if budget == 0 then []
    else
      var data := Poll(polls, from);
      if data == map[] then Emitted(polls, from + 1, budget - 1)
      else
        assert DecodeMap(data).Keys == data.Keys;
        if Terminal(data) then [DecodeMap(data)]
        else
          assert !Terminal(DecodeMap(data));
          [DecodeMap(data)] + Emitted(polls, from + 1, budget - 1)
  }

  /** `stream`'s event generator. */
  method StreamEvents(polls: seq<Hash>) returns (events: seq<Hash>)
    ensures events == Emitted(polls, 0, MaxPolls)
    ensures |events| <= MaxPolls
  {
    events := StreamWithin(polls, MaxPolls);
  }

  /** The generator's loop with `budget` polls: it sends what `Emitted` describes. */
  method StreamWithin(polls: seq<Hash>, budget: nat) returns (events: seq<Hash>)
    ensures events == Emitted(polls, 0, budget)
  {
    events := [];
    var i := 0;
    ghost var total := Emitted(polls, 0, budget);
    assert events + Emitted(polls, i, budget - i) == total by {
      assert events + total == total;
    }
    while i < budget
      invariant 0 <= i <= budget
      invariant events + Emitted(polls, i, budget - i) == total
    {
      var data := Poll(polls, i);
      EmittedStep(polls, i, budget - i);
      if data != map[] {
        if Terminal(data) {
          events := events + [DecodeMap(data)];
          break;
        }
        AppendAssoc(events, [DecodeMap(data)], Emitted(polls, i + 1, budget - i - 1));
        events := events + [DecodeMap(data)];
      }
      i := i + 1;
    }
  }

  /** One poll of the stream: an empty read sends nothing, a terminal one is the last event. */
  lemma EmittedStep(polls: seq<Hash>, from: nat, budget: nat)
    requires budget > 0
    ensures var data := Poll(polls, from);
            var rest := Emitted(polls, from + 1, budget - 1);
            && (data == map[] ==> Emitted(polls, from, budget) == rest)
            && (data != map[] && Terminal(data) ==> Emitted(polls, from, budget) == [DecodeMap(data)])
            && (data != map[] && !Terminal(data) ==> Emitted(polls, from, budget) == [DecodeMap(data)] + rest)
  {
  }

  /** The polls `from .. from + budget - 1`. */
  function Window(polls: seq<Hash>, from: nat, budget: nat): (w: seq<Hash>)
    ensures |w| == budget
    ensures forall i :: 0 <= i < budget ==> w[i] == Poll(polls, from + i)
  {
    seq(budget, i requires 0 <= i < budget => Poll(polls, from + i))
  }

  /** Every hash decoded, in order. */
  function DecodeAll(hs: seq<Hash>): (r: seq<Hash>)
    ensures |r| == |hs|
  {
    if |hs| == 0 then [] else [DecodeMap(hs[0])] + DecodeAll(hs[1..])
  }

  predicate NonEmpty(h: Hash) {
    h != map[]
  }

  /** None of the `budget` polls from `from` reads a terminal status. */
  predicate NoTerminal(polls: seq<Hash>, from: nat, budget: nat) {
    forall j :: from <= j < from + budget ==> !Terminal(Poll(polls, j))
  }

  /** The non-empty reads of a window: the first poll, when it is non-empty, then those of
      the rest of the window. */
  lemma FilterWindowHead(polls: seq<Hash>, from: nat, budget: nat)
    requires budget > 0
    ensures var rest := Filter(Window(polls, from + 1, budget - 1), NonEmpty);
            Filter(Window(polls, from, budget), NonEmpty) ==
              if NonEmpty(Poll(polls, from)) then [Poll(polls, from)] + rest else rest
  {
    var w := Window(polls, from, budget);
    assert w[1..] == Window(polls, from + 1, budget - 1);
  }

  /** Decoding a sequence that starts with `h` starts with `h` decoded. */
  lemma DecodeAllCons(h: Hash, rest: seq<Hash>)
    ensures DecodeAll([h] + rest) == [DecodeMap(h)] + DecodeAll(rest)
  {
    assert ([h] + rest)[1..] == rest;
  }

  /** Until a terminal status shows up, the stream is exactly the non-empty reads, decoded,
      in order. */
  lemma {:induction false} EmittedWithoutTerminal(polls: seq<Hash>, from: nat, budget: nat)
    requires NoTerminal(polls, from, budget)
    ensures Emitted(polls, from, budget) == DecodeAll(Filter(Window(polls, from, budget), NonEmpty))
    decreases budget
  {
    if budget > 0 {
      var h := Poll(polls, from);
      var rest := Filter(Window(polls, from + 1, budget - 1), NonEmpty);
      assert NoTerminal(polls, from + 1, budget - 1);
      EmittedWithoutTerminal(polls, from + 1, budget - 1);
      FilterWindowHead(polls, from, budget);
      assert !Terminal(h);
      EmittedStep(polls, from, budget);
      if NonEmpty(h) {
        DecodeAllCons(h, rest);
      }
    }
  }

  /** A terminal snapshot read within the budget is the last event sent. */
  lemma {:induction false} EmittedStopsAtTerminal(polls: seq<Hash>, from: nat, budget: nat, k: nat)
    requires k < budget && Terminal(Poll(polls, from + k)) && NoTerminal(polls, from, k)
    ensures |Emitted(polls, from, budget)| > 0
    ensures Emitted(polls, from, budget)[|Emitted(polls, from, budget)| - 1] == DecodeMap(Poll(polls, from + k))
    decreases k
  {
    EmittedStep(polls, from, budget);
    if k > 0 {
      assert !Terminal(Poll(polls, from));
      assert NoTerminal(polls, from + 1, k - 1);
      EmittedStopsAtTerminal(polls, from + 1, budget - 1, k - 1);
    }
  }

  /** The stream as written, with the client's field names as text (`textNames`, as
      FakeValkey returns them) or as bytes (as the real client returns them). The status
      test looks the field up by its text name, so with bytes names it never sees a
      terminal status. */
  function EmittedAsWritten(polls: seq<Hash>, from: nat, budget: nat, textNames: bool): (r: seq<Hash>)
    ensures |r| <= budget
    decreases budget
  {
    if budget == 0 then []
    else
      var data := Poll(polls, from);
      if data == map[] then EmittedAsWritten(polls, from + 1, budget - 1, textNames)
      else if textNames && Terminal(data) then [DecodeMap(data)]
      else [DecodeMap(data)] + EmittedAsWritten(polls, from + 1, budget - 1, textNames)
  }

  /** With text field names the stream as written is the intended one. */
  lemma {:induction false} AsWrittenWithTextNames(polls: seq<Hash>, from: nat, budget: nat)
    ensures EmittedAsWritten(polls, from, budget, true) == Emitted(polls, from, budget)
    decreases budget
  {
    if budget > 0 {
      AsWrittenWithTextNames(polls, from + 1, budget - 1);
      EmittedStep(polls, from, budget);
    }
  }

  /** With bytes field names the stream as written sends every non-empty read, decoded,
      whatever status it holds. */
  lemma AsWrittenWithBytesNames(polls: seq<Hash>, from: nat, budget: nat)
    ensures EmittedAsWritten(polls, from, budget, false) == DecodeAll(Filter(Window(polls, from, budget), NonEmpty))
  {
    AsWrittenSendsReads(polls, from, budget);
    NonEmptyReadsFilter(polls, from, budget);
  }

  /** The non-empty reads among the `budget` polls from `from`, in order. */
  function NonEmptyReads(polls: seq<Hash>, from: nat, budget: nat): seq<Hash>
    decreases budget
  {
    if budget == 0 then []
    else if Poll(polls, from) == map[] then NonEmptyReads(polls, from + 1, budget - 1)
    else [Poll(polls, from)] + NonEmptyReads(polls, from + 1, budget - 1)
  }

  lemma {:induction false} AsWrittenSendsReads(polls: seq<Hash>, from: nat, budget: nat)
    ensures EmittedAsWritten(polls, from, budget, false) == DecodeAll(NonEmptyReads(polls, from, budget))
    decreases budget
  {
    if budget > 0 {
      var h := Poll(polls, from);
      AsWrittenSendsReads(polls, from + 1, budget - 1);
      if h != map[] {
        DecodeAllCons(h, NonEmptyReads(polls, from + 1, budget - 1));
      }
    }
  }

  lemma {:induction false} NonEmptyReadsFilter(polls: seq<Hash>, from: nat, budget: nat)
    ensures NonEmptyReads(polls, from, budget) == Filter(Window(polls, from, budget), NonEmpty)
    decreases budget
  {
    if budget > 0 {
      NonEmptyReadsFilter(polls, from + 1, budget - 1);
      FilterWindowHead(polls, from, budget);
    }
  }

  /** A job that has already finished (with the real client that means `failed`, the status
      the pipeline's except branch writes): the stream as written sends the same snapshot on
      every one of its 120 polls, where the intended stream sends it once. */
  lemma RealClientStreamIgnoresCompletion(h: Hash)
    requires Terminal(h)
    ensures var polls := seq(MaxPolls, i => h);
            && |EmittedAsWritten(polls, 0, MaxPolls, false)| == MaxPolls
            && Emitted(polls, 0, MaxPolls) == [DecodeMap(h)]
  {
    var polls := seq(MaxPolls, i => h);
    var w := Window(polls, 0, MaxPolls);
    AsWrittenWithBytesNames(polls, 0, MaxPolls);
    FilterAll(w, NonEmpty);
    EmittedStep(polls, 0, MaxPolls);
  }
}
