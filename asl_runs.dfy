/** Properties of `asl.py` that only show over many calls of
    `update_prediction`: the repeat delay between two commits of the same
    word, and the warm-up that precedes every commit. */
module AslRuns {
  import opened Common
  import opened Asl

  /** One call of `update_prediction`: the classifier output and the clock. */
  datatype Reading = Reading(probs: seq<real>, now: real)

  predicate Readable(inputs: seq<Reading>, labels: nat)
  {
    forall k :: 0 <= k < |inputs| ==> |inputs[k].probs| == labels
  }

  /** No label is the empty string, so "" is never a word that was committed. */
  predicate Labels(actions: seq<string>)
  {
    0 < |actions| && forall k :: 0 <= k < |actions| ==> actions[k] != ""
  }

  /** A committed word and the time of its commit. */
  datatype Commit = Commit(word: string, at: real)

  /** The state after a run of calls, and the words committed along the way. */
  datatype Trace = Trace(memory: Smoothing, commits: seq<Commit>)

  /** `update_prediction` called on each reading in turn, from `m`. */
  function Run(m: Smoothing, actions: seq<string>, inputs: seq<Reading>): (t: Trace)
    requires 0 < |actions| && Consistent(m, |actions|) && Readable(inputs, |actions|)
    ensures Consistent(t.memory, |actions|)
    ensures |t.commits| <= |inputs|
  {
    if inputs == [] then Trace(m, [])
    else
      var t := Run(m, actions, inputs[..|inputs| - 1]);
      var x := inputs[|inputs| - 1];
      var u := Step(t.memory, actions, x.probs, x.now);
      Trace(u.memory,
            if u.out.committed != "" then t.commits + [Commit(u.out.committed, x.now)] else t.commits)
  }

  /** With non-empty labels a call reports a word exactly when `Commits`
      holds, and then the commit memory holds that word and time. */
  lemma StepCommit(m: Smoothing, actions: seq<string>, probs: seq<real>, now: real)
    requires Labels(actions) && |probs| == |actions| && Consistent(m, |actions|)
    ensures var r := Step(m, actions, probs, now);
      && (r.out.committed != "" <==> Commits(m, actions, probs, now))
      && (r.out.committed != "" ==>
            r.memory.lastCommit == Some(r.out.committed) && r.memory.lastCommitTime == Some(now))
      && (r.out.committed == "" ==> SameCommitMemory(m, r.memory))
  {
    StepCases(m, actions, probs, now);
  }

  /** The commit memory after a run is the last commit of the run, or the
      memory it started with when nothing was committed. */
  lemma {:induction false} RunRemembersLastCommit(m: Smoothing, actions: seq<string>, inputs: seq<Reading>)
    requires Labels(actions) && Consistent(m, |actions|) && Readable(inputs, |actions|)
    ensures var t := Run(m, actions, inputs);
      if t.commits == [] then SameCommitMemory(m, t.memory)
      else
        && t.memory.lastCommit == Some(t.commits[|t.commits| - 1].word)
        && t.memory.lastCommitTime == Some(t.commits[|t.commits| - 1].at)
  {
    if inputs != [] {
      var t := Run(m, actions, inputs[..|inputs| - 1]);
      var x := inputs[|inputs| - 1];
      RunRemembersLastCommit(m, actions, inputs[..|inputs| - 1]);
      StepCommit(t.memory, actions, x.probs, x.now);
    }
  }

  /** The repeat delay: when the same word is committed twice in a row, at
      least REPEAT_DELAY_SECONDS separate the two commits; the same holds for
      the first commit of a run against the word remembered at its start. */
  lemma {:induction false} RepeatDelay(m: Smoothing, actions: seq<string>, inputs: seq<Reading>)
    requires Labels(actions) && Consistent(m, |actions|) && Readable(inputs, |actions|)
    ensures var c := Run(m, actions, inputs).commits;
      forall i :: 0 < i < |c| && c[i].word == c[i - 1].word ==> c[i].at - c[i - 1].at >= REPEAT_DELAY_SECONDS
    ensures var c := Run(m, actions, inputs).commits;
      |c| > 0 && m.lastCommit == Some(c[0].word) ==> c[0].at - m.lastCommitTime.value >= REPEAT_DELAY_SECONDS
  {
    if inputs != [] {
      var prefix := inputs[..|inputs| - 1];
      var t := Run(m, actions, prefix);
      var x := inputs[|inputs| - 1];
      RepeatDelay(m, actions, prefix);
      RunRemembersLastCommit(m, actions, prefix);
      StepRepeat(t.memory, actions, x.probs, x.now);
      var w := Step(t.memory, actions, x.probs, x.now).out.committed;
      assert Run(m, actions, inputs).commits
          == if w != "" then t.commits + [Commit(w, x.now)] else t.commits;
    }
  }

  /** A committed word obeys the repeat rule against the commit memory the
      call started from. */
  lemma StepRepeat(m: Smoothing, actions: seq<string>, probs: seq<real>, now: real)
    requires Labels(actions) && |probs| == |actions| && Consistent(m, |actions|)
    ensures var w := Step(m, actions, probs, now).out.committed;
      w != "" ==> MayRepeat(m, w, now)
  {
    StepCases(m, actions, probs, now);
  }

  /** The window only grows by one entry per call. */
  lemma {:induction false} RunHistoryGrowth(m: Smoothing, actions: seq<string>, inputs: seq<Reading>)
    requires 0 < |actions| && Consistent(m, |actions|) && Readable(inputs, |actions|)
    ensures |Run(m, actions, inputs).memory.predHist| <= |m.predHist| + |inputs|
  {
    if inputs != [] {
      var prefix := inputs[..|inputs| - 1];
      var t := Run(m, actions, prefix);
      var x := inputs[|inputs| - 1];
      RunHistoryGrowth(m, actions, prefix);
      StepCases(t.memory, actions, x.probs, x.now);
    }
  }

  /** Warm-up: no word is committed before the window has filled, that is
      while fewer than WINDOW predictions can have entered it. */
  lemma {:induction false} NoCommitBeforeFullWindow(m: Smoothing, actions: seq<string>, inputs: seq<Reading>)
    requires 0 < |actions| && Consistent(m, |actions|) && Readable(inputs, |actions|)
    requires |m.predHist| + |inputs| < WINDOW
    ensures Run(m, actions, inputs).commits == []
  {
    if inputs != [] {
      var prefix := inputs[..|inputs| - 1];
      var t := Run(m, actions, prefix);
      var x := inputs[|inputs| - 1];
      NoCommitBeforeFullWindow(m, actions, prefix);
      RunHistoryGrowth(m, actions, prefix);
      StepCases(t.memory, actions, x.probs, x.now);
    }
  }

  /** One frame of the webcam loop: the hand detector's verdict, the
      keypoints, the classifier output and the clock. */
  datatype Observation = Observation(present: bool, keypoints: seq<real>, probs: seq<real>, now: real)

  predicate Observable(obs: seq<Observation>, labels: nat)
  {
    forall k :: 0 <= k < |obs| ==> |obs[k].probs| == labels
  }

  /** The loop body run on each frame in turn, from `f`. */
  function Frames(f: Frame, actions: seq<string>, obs: seq<Observation>): (g: Frame)
    requires 0 < |actions| && FrameConsistent(f, |actions|) && Observable(obs, |actions|)
    ensures FrameConsistent(g, |actions|)
  {
    if obs == [] then f
    else
      var x := obs[|obs| - 1];
      FrameStep(Frames(f, actions, obs[..|obs| - 1]), actions, x.present, x.keypoints, x.probs, x.now).frame
  }

  /** The idle timer is off exactly when the last frame showed hands, or
      before the first frame. */
  lemma TimerOff(f: Frame, actions: seq<string>, obs: seq<Observation>)
    requires 0 < |actions| && FrameConsistent(f, |actions|) && Observable(obs, |actions|)
    requires f.lastHandTime == None
    ensures Frames(f, actions, obs).lastHandTime == None <==> obs == [] || obs[|obs| - 1].present
  {
  }

  /** The idle timer, starting off, holds the clock reading of the first frame
      `j` of the current run of hands-absent frames. */
  lemma {:induction false} IdleTimer(f: Frame, actions: seq<string>, obs: seq<Observation>, j: nat)
    requires 0 < |actions| && FrameConsistent(f, |actions|) && Observable(obs, |actions|)
    requires f.lastHandTime == None
    requires j < |obs| && (j == 0 || obs[j - 1].present)
    requires forall k :: j <= k < |obs| ==> !obs[k].present
    ensures Frames(f, actions, obs).lastHandTime == Some(obs[j].now)
  {
    var prefix := obs[..|obs| - 1];
    if j == |obs| - 1 {
      TimerOff(f, actions, prefix);
    } else {
      IdleTimer(f, actions, prefix, j);
    }
  }

  /** A run of hands-absent frames spanning at least CLEAR_IDLE_SECONDS, from
      the first absent frame to the current one, empties the sentence and
      forgets the last committed word. */
  lemma LongIdleClears(f: Frame, actions: seq<string>, obs: seq<Observation>, j: nat)
    requires 0 < |actions| && FrameConsistent(f, |actions|) && Observable(obs, |actions|)
    requires f.lastHandTime == None
    requires j < |obs| && (j == 0 || obs[j - 1].present)
    requires forall k :: j <= k < |obs| ==> !obs[k].present
    requires obs[|obs| - 1].now - obs[j].now >= CLEAR_IDLE_SECONDS
    ensures Frames(f, actions, obs).sentence == []
    ensures Frames(f, actions, obs).smoothing == Initial().smoothing
  {
    IdleTimer(f, actions, obs, j);
  }
}
