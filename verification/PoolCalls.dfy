/** What one call of a host means to its caller, over every run: an answer is up to date, and an update
    that returns has taken effect. */
module PoolCalls {
  import opened Common
  import opened Json
  import opened Pool
  import opened PoolInvariant
  import opened PoolSteps
  import opened PoolRuns
  import Flags
  import Engine
  import Hosts

  // ---------------------------------------------------------------------------
  // One call, from its first step to its last.
  // ---------------------------------------------------------------------------

  predicate Begins(e: Event) { e.StartEvaluation? || e.StartUpdate? }

  /** Thread `t` begins no call in these steps. */
  predicate NoCallOf(t: nat, steps: seq<(nat, Event)>) {
    forall k :: 0 <= k < |steps| ==> !(steps[k].0 == t && Begins(steps[k].1))
  }

  predicate Evaluating(pc: Pc) {
    || pc.Loading? || pc.Taking? || pc.Guarding? || pc.Reloading? || pc.Asking? || pc.Returning? || pc.Answered?
  }

  /** The thread is at work on the call that `e` began, or has just finished it. An empty context
      makes Java's overload pass on to the one for texts. */
  predicate Serves(pc: Pc, e: Event, start: nat) {
    match e
    case StartEvaluation(key, context, now, text) =>
      && Evaluating(pc) && pc.call == Call(key, context, now, pc.call.text, start)
      && (text ==> pc.call.text) && (context != map[] ==> pc.call.text == text)
    case StartUpdate(config) => (pc.Locking? || Updating(pc) || pc.Updated?) && pc.job == Job(config, start)
    case _ => false
  }

  /** The call ends, or is about to end, with an error on the way. */
  predicate Broken(pc: Pc) {
    || ((pc.Returning? || pc.Answered?) && pc.result.None?)
    || ((pc.Releasing? || pc.Unlocking? || pc.Updated?) && pc.ending.Failed?)
  }

  /** A step keeps the call's data, and breaks it only if it fails. */
  lemma StepServes(m: Machine, s: System, t: nat, e: Event, start: nat, u: nat, f: Event)
    requires t < |s.threads| && u < |s.threads| && s.history != [] && Next(m, s, u, f).Some?
    requires Serves(s.threads[t], e, start) && !(u == t && Begins(f))
    ensures var after := Next(m, s, u, f).value;
            && |after.threads| == |s.threads| && Serves(after.threads[t], e, start)
            && (Broken(after.threads[t]) ==> Broken(s.threads[t]) || (u == t && f == Fail))
  {
    hide Engine.Update, Evaluate, Apply, Elements;
    StepMovesOne(m, s, u, f);
    if u == t && f.Proceed? {
      if Evaluating(s.threads[t]) {
        EvaluationServes(m, s, t, e, start);
      } else {
        UpdateServes(m, s, t, e, start);
      }
    }
  }

  lemma StepMovesOne(m: Machine, s: System, t: nat, e: Event)
    requires t < |s.threads| && s.history != [] && Next(m, s, t, e).Some?
    ensures var after := Next(m, s, t, e).value;
            |after.threads| == |s.threads| && after.threads == s.threads[t := after.threads[t]]
  {
    hide Engine.Update, Reply, Suited, TooLarge, Elements, SnapshotOf;
  }

  lemma EvaluationServes(m: Machine, s: System, t: nat, e: Event, start: nat)
    requires t < |s.threads| && Evaluate(m, s, t).Some? && Evaluating(s.threads[t]) && Serves(s.threads[t], e, start)
    ensures var after := Evaluate(m, s, t).value;
            && |after.threads| == |s.threads| && Serves(after.threads[t], e, start)
            && (Broken(after.threads[t]) ==> Broken(s.threads[t]))
  {
    hide Reply, Suited;
  }

  lemma UpdateServes(m: Machine, s: System, t: nat, e: Event, start: nat)
    requires t < |s.threads| && s.history != [] && Next(m, s, t, Proceed).Some?
    requires !Evaluating(s.threads[t]) && Serves(s.threads[t], e, start)
    ensures var after := Next(m, s, t, Proceed).value;
            && |after.threads| == |s.threads| && Serves(after.threads[t], e, start)
            && (Broken(after.threads[t]) ==> Broken(s.threads[t]))
  {
    hide Engine.Update, TooLarge, Elements, SnapshotOf;
  }

  /** The thread is at work on its call in every run that goes on from the call's beginning. */
  lemma {:induction false} CallStays(
    m: Machine, n: nat, before: seq<(nat, Event)>, t: nat, e: Event, more: seq<(nat, Event)>)
    requires Begins(e) && NoCallOf(t, more) && Run(m, n, before + [(t, e)] + more).Some?
    ensures Run(m, n, before).Some?
    ensures var s, after := Run(m, n, before).value, Run(m, n, before + [(t, e)] + more).value;
            && s.history != [] && t < |after.threads| && Serves(after.threads[t], e, |s.history| - 1)
            && (Broken(after.threads[t]) ==> (t, Fail) in more)
    decreases |more|
  {
    hide Next, Initial, Serves, Broken;
    var all := before + [(t, e)] + more;
    if more == [] {
      assert all[..|all| - 1] == before && all[|all| - 1] == (t, e);
      FirstStepServes(m, Run(m, n, before).value, t, e);
    } else {
      var fewer := more[..|more| - 1];
      var (u, f) := more[|more| - 1];
      assert all[..|all| - 1] == before + [(t, e)] + fewer && all[|all| - 1] == (u, f);
      CallStays(m, n, before, t, e, fewer);
      StepServes(m, Run(m, n, before + [(t, e)] + fewer).value, t, e, |Run(m, n, before).value.history| - 1, u, f);
    }
  }

  lemma FirstStepServes(m: Machine, s: System, t: nat, e: Event)
    requires t < |s.threads| && s.history != [] && Begins(e) && Next(m, s, t, e).Some?
    ensures var after := Next(m, s, t, e).value;
            && t < |after.threads| && Serves(after.threads[t], e, |s.history| - 1) && !Broken(after.threads[t])
  {
  }

  /** Thread `t` begins a call with `e` after the steps `before`, and `more` leads to its end without
      an error on the way. */
  ghost predicate Completes(
    m: Machine, n: nat, before: seq<(nat, Event)>, t: nat, e: Event, more: seq<(nat, Event)>) {
    && Begins(e) && NoCallOf(t, more) && (t, Fail) !in more
    && Run(m, n, before).Some? && Run(m, n, before).value.history != []
    && var after := Run(m, n, before + [(t, e)] + more);
       after.Some? && t < |after.value.threads| && AtRest(after.value.threads[t])
  }

  /** The position of the configuration that is current after the steps. */
  ghost function CurrentAfter(m: Machine, n: nat, steps: seq<(nat, Event)>): nat
    requires Run(m, n, steps).Some? && Run(m, n, steps).value.history != []
  {
    |Run(m, n, steps).value.history| - 1
  }

  // ---------------------------------------------------------------------------
  // Evaluations.
  // ---------------------------------------------------------------------------

  /** What an up-to-date answer rests on, besides the protocol. Java's overload for texts needs nothing.
      The others need a plain context and admissible configurations since the call began, and Java
      also that its context suits, which is so at least if no update was stored during the call. */
  ghost predicate Sound(m: Machine, s: System, from: nat, key: string, context: map<string, Json>, suited: bool) {
    && Flags.PlainContext(Obj(context))
    && (forall j :: from <= j < |s.history| ==> Hosts.Admissible(s.history[j], key))
    && (m.host.Java? ==> suited || |s.history| == from + 1)
  }

  /** An evaluation that ends without an error gives the simple answer for its own key and context,
      under a configuration that was current at some point since the call began. */
  lemma AnswersAreCurrent(
    m: Machine, n: nat, before: seq<(nat, Event)>, t: nat, key: string, context: map<string, Json>, now: int,
    text: bool, more: seq<(nat, Event)>)
    requires Completes(m, n, before, t, StartEvaluation(key, context, now, text), more)
    requires var s := Run(m, n, before + [(t, StartEvaluation(key, context, now, text))] + more).value;
             s.threads[t].Answered? && !text ==>
               Sound(m, s, CurrentAfter(m, n, before), key, context, s.threads[t].suited)
    ensures var s := Run(m, n, before + [(t, StartEvaluation(key, context, now, text))] + more).value;
            && s.threads[t].Answered? && s.threads[t].result.Some?
            && exists j :: CurrentAfter(m, n, before) <= j < |s.history|
                && s.threads[t].result.value == Hosts.Simple(s.history[j], key, context, now, m.sv)
  {
    hide Run, Inv, Hosts.Simple, Flags.PlainContext, Hosts.Admissible, Linear;
    var e := StartEvaluation(key, context, now, text);
    CallStays(m, n, before, t, e, more);
    RunInvariant(m, n, before + [(t, e)] + more);
    var s := Run(m, n, before + [(t, e)] + more).value;
    LocalOf(m, s, t);
    var pc := s.threads[t];
    assert Assured(m, s.history, pc.call, pc.suited);
    LinearIsSimple(m, s.history, pc.call, pc.result.value);
  }

  lemma LinearIsSimple(m: Machine, history: seq<Flags.State>, call: Call, r: Flags.Evaluation)
    requires Linear(m, history, call, r)
    ensures exists j :: call.start <= j < |history| &&
              r == Hosts.Simple(history[j], call.key, call.context, call.now, m.sv)
  {
    hide Hosts.Simple;
  }

  // ---------------------------------------------------------------------------
  // Updates.
  // ---------------------------------------------------------------------------

  /** What a host publishes for a loaded flag set. */
  ghost predicate Publishes(cache: Snapshot, s: Flags.FlagSet, sv: Flags.Services) {
    && cache.tables == Hosts.TablesFor(s, sv)
    && cache.metadata == if s.metadata == map[] then None else Some(s.metadata)
  }

  /** The configuration was loaded at position `j` of the history, and is what the host publishes
      until the next update is stored. */
  ghost predicate Installed(m: Machine, s: System, config: string, j: nat)
    requires Engine.Load(config, m.strict, m.sv).Some? && 0 < j < |s.history|
  {
    var set_ := Engine.Load(config, m.strict, m.sv).value;
    s.history[j] == Engine.StateOf(set_) && (s.cache.generation == j ==> Publishes(s.cache, set_, m.sv))
  }

  /** What an update has to end with: one that is too large is refused; one that loads has become the
      current configuration at some point after position `from`, and is reported as a success; one that
      does not load is reported as rejected. */
  ghost predicate Done(m: Machine, s: System, config: string, from: nat, ending: Ending) {
    if TooLarge(config) then ending == Refused
    else if Engine.Load(config, m.strict, m.sv).None? then ending == Finished(Engine.REJECTED)
    else
      && ending.Finished? && ending.response.success
      && exists j :: from < j < |s.history| && Installed(m, s, config, j)
  }

  lemma FinishedIsDone(m: Machine, s: System, job: Job, r: Engine.Response, j: nat)
    requires !TooLarge(job.text) && job.start <= j < |s.history|
    requires TookEffect(m, s.cache, s.history, job.text, r, j)
    ensures Done(m, s, job.text, job.start, Finished(r))
  {
    hide TooLarge, Engine.Load, Hosts.TablesFor, Engine.AcceptedResponse;
    if Engine.Load(job.text, m.strict, m.sv).Some? {
      AcceptedIsPublished(s.history[j].loaded, Engine.Load(job.text, m.strict, m.sv).value, m.sv, j + 1);
      assert Installed(m, s, job.text, j + 1);
    }
  }

  lemma AcceptedIsPublished(old_: Option<Flags.FlagSet>, new_: Flags.FlagSet, sv: Flags.Services, generation: nat)
    ensures Publishes(SnapshotOf(generation, Engine.AcceptedResponse(old_, new_, sv)), new_, sv)
    ensures Engine.AcceptedResponse(old_, new_, sv).success
  {
    hide Hosts.TablesFor, Hosts.TablesOf;
    Hosts.AcceptedTables(old_, new_, sv);
  }

  lemma EndedIsDone(m: Machine, s: System, job: Job, ending: Ending)
    requires Ended(m, s.cache, s.history, job, ending) && !ending.Failed?
    ensures Done(m, s, job.text, job.start, ending)
  {
    hide TookEffect, TooLarge, Engine.Load, Installed;
    if ending.Finished? {
      var j :| job.start <= j < |s.history| && TookEffect(m, s.cache, s.history, job.text, ending.response, j);
      FinishedIsDone(m, s, job, ending.response, j);
    }
  }

  /** For every host, pool size, schedule and thread: an update that ends without an error on the way
      has taken effect. */
  lemma UpdatesTakeEffect(
    m: Machine, n: nat, before: seq<(nat, Event)>, t: nat, config: string, more: seq<(nat, Event)>)
    requires Completes(m, n, before, t, StartUpdate(config), more)
    ensures var s := Run(m, n, before + [(t, StartUpdate(config))] + more).value;
            && s.threads[t].Updated?
            && Done(m, s, config, CurrentAfter(m, n, before), s.threads[t].ending)
  {
    hide Run, Inv, Done, TookEffect, TooLarge, Engine.Load;
    var e := StartUpdate(config);
    CallStays(m, n, before, t, e, more);
    RunInvariant(m, n, before + [(t, e)] + more);
    var s := Run(m, n, before + [(t, e)] + more).value;
    LocalOf(m, s, t);
    EndedIsDone(m, s, s.threads[t].job, s.threads[t].ending);
  }

  /** So whoever evaluates after an accepted update has returned never sees an older configuration. */
  lemma ReadsFollowUpdates(
    m: Machine, n: nat, a: seq<(nat, Event)>, u: nat, config: string, b: seq<(nat, Event)>, t: nat, key: string,
    context: map<string, Json>, now: int, text: bool, c: seq<(nat, Event)>)
    requires Completes(m, n, a, u, StartUpdate(config), b)
    requires !TooLarge(config) && Engine.Load(config, m.strict, m.sv).Some?
    requires var before := a + [(u, StartUpdate(config))] + b;
             var e := StartEvaluation(key, context, now, text);
             && Completes(m, n, before, t, e, c)
             && var s := Run(m, n, before + [(t, e)] + c).value;
                s.threads[t].Answered? && !text ==>
                  Sound(m, s, CurrentAfter(m, n, before), key, context, s.threads[t].suited)
    ensures var before := a + [(u, StartUpdate(config))] + b;
            var s := Run(m, n, before + [(t, StartEvaluation(key, context, now, text))] + c).value;
            && s.threads[t].Answered? && s.threads[t].result.Some?
            && exists i, j :: 0 < i <= j < |s.history|
                && s.history[i] == Engine.StateOf(Engine.Load(config, m.strict, m.sv).value)
                && s.threads[t].result.value == Hosts.Simple(s.history[j], key, context, now, m.sv)
  {
    hide Run, Hosts.Simple, Sound, Engine.Load, TooLarge, Publishes, NoCallOf;
    var before := a + [(u, StartUpdate(config))] + b;
    var e := StartEvaluation(key, context, now, text);
    UpdatesTakeEffect(m, n, a, u, config, b);
    var s0, s := Run(m, n, before).value, Run(m, n, before + [(t, e)] + c).value;
    var i :| 0 < i < |s0.history| && Installed(m, s0, config, i);
    AnswersAreCurrent(m, n, before, t, key, context, now, text, c);
    assert before + [(t, e)] + c == before + ([(t, e)] + c);
    RunsMoveForward(m, n, before, [(t, e)] + c);
    assert s.history[i] == s0.history[i];
    var j :| CurrentAfter(m, n, before) <= j < |s.history|
        && s.threads[t].result.value == Hosts.Simple(s.history[j], key, context, now, m.sv);
    assert i <= j;
  }

  // ---------------------------------------------------------------------------
  // Nothing but updates changes the configuration.
  // ---------------------------------------------------------------------------

  /** Position `j` of the history is what one of the texts that updates were begun with made of the
      configuration before it. */
  ghost predicate Explained(m: Machine, schedule: seq<(nat, Event)>, history: seq<Flags.State>, j: nat)
    requires 0 < j < |history|
  {
    exists t, config :: (t, StartUpdate(config)) in schedule && !TooLarge(config)
      && history[j] == Engine.Update(history[j - 1], config, m.strict, m.sv).0
  }

  predicate HasJob(pc: Pc) { pc.Locking? || pc.Updated? || Updating(pc) }

  /** Every update that is under way was begun in the schedule. */
  ghost predicate JobsAreBegun(schedule: seq<(nat, Event)>, s: System) {
    forall t :: 0 <= t < |s.threads| && HasJob(s.threads[t]) ==> (t, StartUpdate(s.threads[t].job.text)) in schedule
  }

  /** The thread's update after the step, if any, is the one before it. */
  predicate KeepsJob(s: System, t: nat, after: System)
    requires t < |s.threads|
  {
    && |after.threads| == |s.threads|
    && (HasJob(after.threads[t]) ==> HasJob(s.threads[t]) && s.threads[t].job == after.threads[t].job)
  }

  lemma EvaluateKeepsJob(m: Machine, s: System, t: nat)
    requires t < |s.threads| && Evaluate(m, s, t).Some?
    ensures KeepsJob(s, t, Evaluate(m, s, t).value)
  {
    hide Reply, Suited;
  }

  lemma ApplyKeepsJob(m: Machine, s: System, t: nat)
    requires t < |s.threads| && s.history != [] && Apply(m, s, t).Some?
    ensures KeepsJob(s, t, Apply(m, s, t).value)
  {
    hide Engine.Update, TooLarge, Elements, SnapshotOf;
  }

  lemma StepKeepsJob(m: Machine, s: System, t: nat, e: Event)
    requires t < |s.threads| && s.history != [] && Next(m, s, t, e).Some?
    ensures var after := Next(m, s, t, e).value;
            && |after.threads| == |s.threads|
            && (KeepsJob(s, t, after) || e == StartUpdate(after.threads[t].job.text))
  {
    hide Engine.Update, Evaluate, Apply, Elements;
    if e.Proceed? && (Updating(s.threads[t]) || s.threads[t].Locking?) {
      ApplyKeepsJob(m, s, t);
    } else if e.Proceed? {
      EvaluateKeepsJob(m, s, t);
    }
  }

  /** A step leaves the history alone, or adds what the thread's update makes of the last entry. */
  lemma StepExplains(m: Machine, s: System, t: nat, e: Event)
    requires Inv(m, s) && t < |s.threads| && Next(m, s, t, e).Some?
    ensures s.history != []
    ensures var after := Next(m, s, t, e).value;
            || after.history == s.history
            || (HasJob(s.threads[t]) && !TooLarge(s.threads[t].job.text)
                && after.history
                   == s.history + [Engine.Update(Current(s), s.threads[t].job.text, m.strict, m.sv).0])
  {
    hide Inv, Engine.Update, Reply, Suited, TooLarge, Elements, SnapshotOf, Known, Served, Ended;
    LocalOf(m, s, t);
  }

  lemma {:induction false} ConfigurationsAreUpdates(m: Machine, n: nat, schedule: seq<(nat, Event)>)
    requires Run(m, n, schedule).Some?
    ensures var s := Run(m, n, schedule).value;
            && s.history != [] && s.history[0] == Flags.EMPTY && JobsAreBegun(schedule, s)
            && forall j :: 0 < j < |s.history| ==> Explained(m, schedule, s.history, j)
  {
    hide Inv, Next, Engine.Update, TooLarge, HasJob;
    if schedule == [] {
      NobodyHasJob(m, n);
    } else {
      var shorter := schedule[..|schedule| - 1];
      var (t, e) := schedule[|schedule| - 1];
      var before, after := Run(m, n, shorter).value, Run(m, n, schedule).value;
      ConfigurationsAreUpdates(m, n, shorter);
      RunInvariant(m, n, shorter);
      StepMovesOne(m, before, t, e);
      StepKeepsJob(m, before, t, e);
      StepExplains(m, before, t, e);
      forall j | 0 < j < |after.history|
        ensures Explained(m, schedule, after.history, j)
      {
        assert j < |before.history| ==> Explained(m, shorter, before.history, j);
      }
    }
  }

  lemma NobodyHasJob(m: Machine, n: nat)
    ensures JobsAreBegun([], Initial(m, n))
  {
  }
}
