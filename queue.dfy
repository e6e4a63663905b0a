/**
  The serial job queue that runs ledger updates one at a time: `enqueue`
  pushes a job at the tail and starts the drain loop unless one is already
  running; the drain loop takes jobs off the head one by one, runs each to
  completion, swallows its error, and clears the busy flag when the queue is
  empty.
*/
module Queue {
  import opened Ledger
  import opened Codec
  import opened Update

  /** A queued job: the `updateAwards` call it makes on the channel. */
  datatype Job = Job(userId: string, delta: int)

  /** The topic after one job has run: the updated topic, or the same topic
      when the job throws. */
  function RunJob(topic: string, job: Job): string {
    TopicAfter(topic, job.userId, job.delta)
  }

  /** What awaiting a job does to the topic. The queue itself runs any such
      job; the award queue runs `RunJob`. */
  type Effect = (string, Job) -> string

  /** `run` is the award update: it agrees with `RunJob` on every topic and job. */
  ghost predicate Runs(run: Effect) {
    forall topic, job {:trigger RunJob(topic, job)} :: run(topic, job) == RunJob(topic, job)
  }

  /** The topic after the jobs have run through `run` one after another,
      first to last. */
  function RunJobs(run: Effect, topic: string, jobs: seq<Job>): string {
    if jobs == [] then topic
    else run(RunJobs(run, topic, jobs[..|jobs| - 1]), jobs[|jobs| - 1])
  }

  lemma RunJobsSnoc(run: Effect, topic: string, jobs: seq<Job>, job: Job)
    ensures RunJobs(run, topic, jobs + [job]) == run(RunJobs(run, topic, jobs), job)
  {
    assert (jobs + [job])[..|jobs|] == jobs;
  }

  /** Running two lists of jobs one after the other is running their concatenation. */
  lemma {:induction false} RunJobsAppend(run: Effect, topic: string, first: seq<Job>, second: seq<Job>)
    ensures RunJobs(run, topic, first + second) == RunJobs(run, RunJobs(run, topic, first), second)
    decreases |second|
  {
    if second == [] {
      assert first + second == first;
    } else {
      var n := |second| - 1;
      var last := second[n];
      RunJobsAppend(run, topic, first, second[..n]);
      assert first + second == (first + second[..n]) + [last];
      assert second == second[..n] + [last];
      RunJobsSnoc(run, topic, first + second[..n], last);
      RunJobsSnoc(run, RunJobs(run, topic, first), second[..n], last);
    }
  }

  /** The update rule on the ledger as a map: add the delta to the balance and
      keep the result only when it is positive. */
  function Step(m: map<string, nat>, job: Job): map<string, nat> {
    var next := Balance(m, job.userId) + job.delta;
    if next > 0 then m[job.userId := next] else m
  }

  /** The ledger after the jobs, folded over it in order. */
  function Fold(m: map<string, nat>, jobs: seq<Job>): map<string, nat> {
    if jobs == [] then m else Step(Fold(m, jobs[..|jobs| - 1]), jobs[|jobs| - 1])
  }

  predicate AllNumeral(jobs: seq<Job>) {
    forall i :: 0 <= i < |jobs| ==> IsNumeral(jobs[i].userId)
  }

  /** Running jobs on the topic text is folding the update rule over the
      ledger the topic decodes to. */
  lemma {:induction false} RunJobsFold(run: Effect, topic: string, jobs: seq<Job>)
    requires Runs(run) && AllNumeral(jobs)
    ensures ToMap(ParseAwards(RunJobs(run, topic, jobs))) == Fold(ToMap(ParseAwards(topic)), jobs)
    decreases |jobs|
  {
    if jobs != [] {
      var n := |jobs| - 1;
      var job := jobs[n];
      var before := RunJobs(run, topic, jobs[..n]);
      assert AllNumeral(jobs[..n]) by {
        forall i | 0 <= i < n ensures IsNumeral(jobs[..n][i].userId) {
          assert jobs[..n][i] == jobs[i];
        }
      }
      RunJobsFold(run, topic, jobs[..n]);
      assert run(before, job) == RunJob(before, job);
      assert IsNumeral(job.userId);
      if Apply(before, job.userId, job.delta).Ok? {
        ApplyDecodes(before, job.userId, job.delta);
      }
    }
  }

  /** A user's balance after a run of deltas applied one at a time, each one
      refused (leaving the balance as it was) when it would not leave a
      positive balance. */
  function SerialBalance(balance: nat, deltas: seq<int>): nat {
    if deltas == [] then balance
    else
      var b := SerialBalance(balance, deltas[..|deltas| - 1]);
      var next := b + deltas[|deltas| - 1];
      if next > 0 then next else b
  }

  /** The deltas of the jobs for one user, in queue order. */
  function DeltasFor(jobs: seq<Job>, userId: string): seq<int> {
    if jobs == [] then []
    else
      var last := jobs[|jobs| - 1];
      DeltasFor(jobs[..|jobs| - 1], userId) + (if last.userId == userId then [last.delta] else [])
  }

  /** The deltas of a list ending in `job` for one user: those of the list
      before it, then the job's own delta when it is that user's. */
  lemma DeltasForSnoc(jobs: seq<Job>, userId: string)
    requires jobs != []
    ensures var last := jobs[|jobs| - 1];
            DeltasFor(jobs, userId)
            == DeltasFor(jobs[..|jobs| - 1], userId) + (if last.userId == userId then [last.delta] else [])
  {
  }

  lemma SerialBalanceSnoc(balance: nat, deltas: seq<int>, delta: int)
    ensures var b := SerialBalance(balance, deltas);
            SerialBalance(balance, deltas + [delta]) == if b + delta > 0 then b + delta else b
  {
    assert (deltas + [delta])[..|deltas|] == deltas;
  }

  /** One job changes only its own user's balance, by the update rule. */
  lemma StepBalance(m: map<string, nat>, job: Job, userId: string)
    ensures var b := Balance(m, userId);
            Balance(Step(m, job), userId)
            == if job.userId != userId then b else if b + job.delta > 0 then b + job.delta else b
  {
  }

  /** No lost update: a user's final balance is their own deltas applied
      serially in queue order, whatever other users' jobs are interleaved. */
  lemma {:induction false} FoldBalance(m: map<string, nat>, jobs: seq<Job>, userId: string)
    ensures Balance(Fold(m, jobs), userId) == SerialBalance(Balance(m, userId), DeltasFor(jobs, userId))
    decreases |jobs|
  {
    if jobs != [] {
      var n := |jobs| - 1;
      var job := jobs[n];
      FoldBalance(m, jobs[..n], userId);
      DeltasForSnoc(jobs, userId);
      StepBalance(Fold(m, jobs[..n]), job, userId);
      var ds := DeltasFor(jobs[..n], userId);
      if job.userId == userId {
        SerialBalanceSnoc(Balance(m, userId), ds, job.delta);
      } else {
        assert ds + [] == ds;
      }
    }
  }

  /** The total number of jobs in a list of batches. */
  ghost function SumLens(batches: seq<seq<Job>>): nat {
    if batches == [] then 0 else |batches[0]| + SumLens(batches[1..])
  }

  /** The jobs other callers enqueue while a drain loop runs that starts with
      `pending` jobs: batch i arrives while the i-th job is awaited, as long
      as the loop is still running then. */
  ghost function Admitted(pending: nat, interleaved: seq<seq<Job>>): seq<Job>
    decreases |interleaved|
  {
    if pending == 0 || interleaved == [] then []
    else interleaved[0] + Admitted(pending - 1 + |interleaved[0]|, interleaved[1..])
  }

  /** While the loop still has pending jobs, the next batch joins what was
      pushed and the rest stays to arrive: the total is the same. */
  lemma AdmitStep(pushed: seq<Job>, pending: nat, arrivals: seq<seq<Job>>)
    requires pending > 0 && arrivals != []
    ensures pushed + Admitted(pending, arrivals)
            == (pushed + arrivals[0]) + Admitted(pending - 1 + |arrivals[0]|, arrivals[1..])
  {
    var later := Admitted(pending - 1 + |arrivals[0]|, arrivals[1..]);
    assert Admitted(pending, arrivals) == arrivals[0] + later;
  }

  /** Moving the head job from the pending part to the part that ran keeps
      "what was pushed is what ran followed by what is pending". */
  lemma ShiftHead(pushed: seq<Job>, done: seq<Job>, queue: seq<Job>)
    requires queue != [] && pushed == done + queue
    ensures pushed == (done + [queue[0]]) + queue[1..]
  {
    assert queue == [queue[0]] + queue[1..];
  }

  /** The module-level `queue` and `processing` of the source, with the channel
      the jobs update. */
  class AwardQueue {
    /** Pending jobs, head first. */
    var queue: seq<Job>
    /** Whether a drain loop is running. */
    var processing: bool
    /** The channel whose topic every job updates. */
    const channel: Channel
    /** Every job ever enqueued, in push order. */
    ghost var pushed: seq<Job>
    /** Every job that has run, in the order it ran. */
    ghost var done: seq<Job>
    /** The topic before the first job ran. */
    ghost const initialTopic: string
    /** What running a job does to the topic. */
    ghost const run: Effect

    /** FIFO: what was pushed is what ran followed by what is pending, and the
        topic is the result of running what ran, in order, on the initial topic. */
    ghost predicate Valid()
      reads this, channel
    {
      pushed == done + queue && Runs(run) && channel.topic == RunJobs(run, initialTopic, done)
    }

    constructor (channel: Channel)
      ensures Valid() && this.channel == channel && initialTopic == channel.topic && run == RunJob
      ensures queue == [] && !processing && pushed == [] && done == []
    {
      this.channel := channel;
      queue, processing := [], false;
      pushed, done := [], [];
      initialTopic := channel.topic;
      run := RunJob;
    }

    /** `enqueue(job)`: push the job at the tail, then start the drain loop.
        When a loop is already running the push is all that happens; otherwise
        the loop runs every pending job, the new one and whatever arrives
        meanwhile, and leaves the queue empty and idle. */
    method Enqueue(job: Job, interleaved: seq<seq<Job>>)
      requires Valid()
      modifies this, channel
      decreases if processing then 0 else 1, 1
      ensures Valid() && processing == old(processing)
      ensures old(processing) ==>
                queue == old(queue) + [job] && pushed == old(pushed) + [job]
                && done == old(done) && channel.topic == old(channel.topic)
      ensures !old(processing) ==>
                queue == [] && done == pushed
                && pushed == old(pushed) + [job] + Admitted(|old(queue)| + 1, interleaved)
                && channel.topic == RunJobs(run, old(channel.topic), old(queue) + [job] + Admitted(|old(queue)| + 1, interleaved))
    {
      queue := queue + [job];
      pushed := pushed + [job];
      ProcessQueue(interleaved);
    }

    /** `await job()`: the job's `updateAwards` call on the channel. An error
        it throws is only logged, so either way the topic is what `run` says. */
    method Await(job: Job)
      requires Runs(run)
      modifies channel
      ensures channel.topic == run(old(channel.topic), job)
    {
      ghost var topic := channel.topic;
      var outcome := UpdateAwards(channel, job.userId, job.delta);
      assert channel.topic == RunJob(topic, job);
    }

    /** One turn of the drain loop: `queue.shift()` and `await job()`. The job
        runs to completion; when it throws the error is only logged, the topic
        stays as it was and the job still counts as done. */
    method RunHead() returns (job: Job)
      requires Valid() && processing && queue != []
      modifies this, channel
      ensures Valid() && processing
      ensures job == old(queue[0]) && queue == old(queue[1..])
      ensures pushed == old(pushed) && done == old(done) + [job]
      ensures channel.topic == run(old(channel.topic), job)
    {
      job := queue[0];
      ShiftHead(pushed, done, queue);
      RunJobsSnoc(run, initialTopic, done, job);
      queue := queue[1..];
      Await(job);
      done := done + [job];
    }

    /** The `enqueue` calls other callers make, one after another, while the
        drain loop awaits a job: each finds the loop running and only pushes. */
    method AdmitBatch(batch: seq<Job>)
      requires Valid() && processing
      modifies this, channel
      decreases 0, 2
      ensures Valid() && processing
      ensures queue == old(queue) + batch && pushed == old(pushed) + batch
      ensures done == old(done) && channel.topic == old(channel.topic)
    {
      var k := 0;
      while k < |batch|
        invariant 0 <= k <= |batch|
        invariant Valid() && processing
        invariant queue == old(queue) + batch[..k] && pushed == old(pushed) + batch[..k]
        invariant done == old(done) && channel.topic == old(channel.topic)
      {
        Enqueue(batch[k], []);
        assert batch[..k + 1] == batch[..k] + [batch[k]];
        k := k + 1;
      }
      assert batch[..k] == batch;
    }

    /** The drain loop `processQueue`. If a loop is already running it returns
        at once and changes nothing. Otherwise it takes the jobs off the head
        one at a time and runs each to completion, a failing job included,
        until the queue is empty; `interleaved[i]` are the `enqueue` calls other
        callers make while the i-th job is awaited. Every job pushed before or
        during the loop runs, exactly once and in push order. */
    method ProcessQueue(interleaved: seq<seq<Job>>)
      requires Valid()
      modifies this, channel
      decreases if processing then 0 else 1, 0
      ensures Valid()
      ensures old(processing) ==>
                processing && queue == old(queue) && pushed == old(pushed)
                && done == old(done) && channel.topic == old(channel.topic)
      ensures !old(processing) ==>
                !processing && queue == [] && done == pushed
                && pushed == old(pushed) + Admitted(|old(queue)|, interleaved)
                && channel.topic == RunJobs(run, old(channel.topic), old(queue) + Admitted(|old(queue)|, interleaved))
    {
      if processing {
        return;
      }
      processing := true;
      ghost var later := Admitted(|queue|, interleaved);
      ghost var total := pushed + later;
      var arrivals := interleaved;
      while |queue| > 0
        invariant Valid() && processing
        invariant pushed + Admitted(|queue|, arrivals) == total
        decreases |queue| + SumLens(arrivals)
      {
        var job := RunHead();
        if arrivals != [] {
          AdmitStep(pushed, |queue| + 1, arrivals);
          AdmitBatch(arrivals[0]);
          arrivals := arrivals[1..];
        }
      }
      assert queue == [] && done == pushed;
      assert pushed == (old(done) + old(queue)) + later;
      assert done == old(done) + (old(queue) + later);
      RunJobsAppend(run, initialTopic, old(done), old(queue) + later);
      processing := false;
    }
  }

  /** The serialisation guarantee on the ledger: once the queue has drained,
      the ledger in the topic is the update rule folded over the initial
      ledger with every pushed job, in push order. */
  lemma DrainedLedger(q: AwardQueue)
    requires q.Valid() && q.queue == [] && AllNumeral(q.pushed)
    ensures ToMap(ParseAwards(q.channel.topic)) == Fold(ToMap(ParseAwards(q.initialTopic)), q.pushed)
  {
    assert q.done == q.pushed;
    RunJobsFold(q.run, q.initialTopic, q.done);
  }
}
