/** Properties of `ml/test.py` over many frames: the same word is never
    committed twice in a row unless a long-idle clear lies between, and the
    countdown hint reaches zero exactly on the frames that clear. */
module MlRuns {
  import opened Common
  import opened MlDemo

  /** No label is the empty string, so "" is never a word that was committed. */
  predicate Labels(actions: seq<string>)
  {
    0 < |actions| && forall k :: 0 <= k < |actions| ==> actions[k] != ""
  }

  /** With non-empty labels a call reports a word exactly when `Commits`
      holds; the last committed word is then that word, and otherwise it is
      unchanged. */
  lemma StepCommit(m: Smoothing, actions: seq<string>, probs: seq<real>, now: real)
    requires Labels(actions) && |probs| == |actions| && Consistent(m, |actions|)
    ensures var r := Step(m, actions, probs, now);
      && (r.out.committed != "" <==> Commits(m, actions, probs, now))
      && (r.out.committed != "" ==> r.memory.lastCommit == Some(r.out.committed))
      && (r.out.committed == "" ==> r.memory.lastCommit == m.lastCommit)
  {
    StepCases(m, actions, probs, now);
  }

  /** One frame of the webcam loop: the hand detector's verdict, the
      keypoints, the classifier output and the clock. */
  datatype Observation = Observation(present: bool, keypoints: seq<real>, probs: seq<real>, now: real)

  predicate Observable(obs: seq<Observation>, labels: nat)
  {
    forall k :: 0 <= k < |obs| ==> |obs[k].probs| == labels
  }

  /** What a frame did to the sentence: nothing, a long-idle clear, or a
      committed word. */
  datatype Event = Quiet | Cleared | Committed(word: string)

  datatype FrameTrace = FrameTrace(frame: Frame, log: seq<Event>)

  /** The loop body run on each frame in turn, from `f`, with one event per frame. */
  function Frames(f: Frame, actions: seq<string>, obs: seq<Observation>): (t: FrameTrace)
    requires 0 < |actions| && FrameConsistent(f, |actions|) && Observable(obs, |actions|)
    ensures FrameConsistent(t.frame, |actions|)
    ensures |t.log| == |obs|
  {
    if obs == [] then FrameTrace(f, [])
    else
      var t := Frames(f, actions, obs[..|obs| - 1]);
      var x := obs[|obs| - 1];
      var r := FrameStep(t.frame, actions, x.present, x.keypoints, x.probs, x.now);
      var e :=
        if r.out.committed != "" then Committed(r.out.committed)
        else if !x.present && x.now - r.frame.lastHandTime.value >= CLEAR_IDLE_SECONDS then Cleared
        else Quiet;
      FrameTrace(r.frame, t.log + [e])
  }

  /** The last committed word as the events tell it: set by a commit,
      forgotten by a clear. */
  function Remembered(init: Option<string>, log: seq<Event>): Option<string>
  {
    if log == [] then init
    else
      match log[|log| - 1]
      case Quiet => Remembered(init, log[..|log| - 1])
      case Cleared => None
      case Committed(w) => Some(w)
  }

  /** The recognizer's last committed word is the one the events tell. */
  lemma {:induction false} RememberedWord(f: Frame, actions: seq<string>, obs: seq<Observation>)
    requires Labels(actions) && FrameConsistent(f, |actions|) && Observable(obs, |actions|)
    ensures var t := Frames(f, actions, obs);
      t.frame.smoothing.lastCommit == Remembered(f.smoothing.lastCommit, t.log)
  {
    if obs != [] {
      var prefix := obs[..|obs| - 1];
      var t := Frames(f, actions, prefix);
      var x := obs[|obs| - 1];
      RememberedWord(f, actions, prefix);
      StepCommit(t.frame.smoothing, actions, x.probs, x.now);
    }
  }

  /** After a commit of `w`, only a clear or a commit of another word changes
      the remembered word. */
  lemma {:induction false} StillRemembered(init: Option<string>, log: seq<Event>, i: nat, w: string)
    requires i < |log| && log[i] == Committed(w)
    requires forall k :: i < k < |log| ==> log[k] == Quiet || log[k] == Committed(w)
    ensures Remembered(init, log) == Some(w)
  {
    if i < |log| - 1 {
      StillRemembered(init, log[..|log| - 1], i, w);
    }
  }

  /** Each frame adds one event at the end of the log. */
  lemma LogGrows(f: Frame, actions: seq<string>, obs: seq<Observation>)
    requires 0 < |actions| && FrameConsistent(f, |actions|) && Observable(obs, |actions|)
    requires obs != []
    ensures var log := Frames(f, actions, obs).log;
      log == Frames(f, actions, obs[..|obs| - 1]).log + [log[|log| - 1]]
  {
  }

  /** The last frame of a run commits only a word other than the one
      remembered before it. */
  lemma LastCommitIsNew(f: Frame, actions: seq<string>, obs: seq<Observation>)
    requires Labels(actions) && FrameConsistent(f, |actions|) && Observable(obs, |actions|)
    requires obs != []
    ensures var log := Frames(f, actions, obs).log;
      log[|log| - 1].Committed? ==>
        Remembered(f.smoothing.lastCommit, Frames(f, actions, obs[..|obs| - 1]).log) != Some(log[|log| - 1].word)
  {
    var prefix := obs[..|obs| - 1];
    var t := Frames(f, actions, prefix);
    var x := obs[|obs| - 1];
    RememberedWord(f, actions, prefix);
    StepCommit(t.frame.smoothing, actions, x.probs, x.now);
  }

  /** Every commit of the log is of a word other than the one remembered just
      before it. */
  predicate Fresh(init: Option<string>, log: seq<Event>)
  {
    forall j :: 0 <= j < |log| && log[j].Committed? ==> Remembered(init, log[..j]) != Some(log[j].word)
  }

  lemma FreshExtend(init: Option<string>, log: seq<Event>, e: Event)
    requires Fresh(init, log)
    requires e.Committed? ==> Remembered(init, log) != Some(e.word)
    ensures Fresh(init, log + [e])
  {
    var log' := log + [e];
    forall j | 0 <= j < |log'| && log'[j].Committed?
      ensures Remembered(init, log'[..j]) != Some(log'[j].word)
    {
      if j < |log| {
        assert log'[..j] == log[..j];
      } else {
        assert log'[..j] == log;
      }
    }
  }

  /** No commit repeats the word remembered just before it. */
  lemma {:induction false} CommitsAreNew(f: Frame, actions: seq<string>, obs: seq<Observation>)
    requires Labels(actions) && FrameConsistent(f, |actions|) && Observable(obs, |actions|)
    ensures Fresh(f.smoothing.lastCommit, Frames(f, actions, obs).log)
  {
    if obs != [] {
      var prefix := obs[..|obs| - 1];
      var log := Frames(f, actions, obs).log;
      CommitsAreNew(f, actions, prefix);
      LastCommitIsNew(f, actions, obs);
      LogGrows(f, actions, obs);
      FreshExtend(f.smoothing.lastCommit, Frames(f, actions, prefix).log, log[|log| - 1]);
    }
  }

  /** The no-repeat rule over frames: when the same word is committed on
      frames `i` and `j`, a long-idle clear or a commit of a different word
      happens in between. */
  lemma NoRepeatWithoutClear(f: Frame, actions: seq<string>, obs: seq<Observation>, i: nat, j: nat)
    requires Labels(actions) && FrameConsistent(f, |actions|) && Observable(obs, |actions|)
    requires i < j < |obs|
    requires Frames(f, actions, obs).log[i].Committed?
    requires Frames(f, actions, obs).log[j] == Frames(f, actions, obs).log[i]
    ensures var log := Frames(f, actions, obs).log;
      exists k :: i < k < j && (log[k] == Cleared || (log[k].Committed? && log[k].word != log[i].word))
  {
    CommitsAreNew(f, actions, obs);
    FreshNoRepeat(f.smoothing.lastCommit, Frames(f, actions, obs).log, i, j);
  }

  /** In a log where no commit repeats the remembered word, two commits of
      the same word have a clear or another word's commit between them. */
  lemma FreshNoRepeat(init: Option<string>, log: seq<Event>, i: nat, j: nat)
    requires Fresh(init, log)
    requires i < j < |log| && log[i].Committed? && log[j] == log[i]
    ensures exists k :: i < k < j && (log[k] == Cleared || (log[k].Committed? && log[k].word != log[i].word))
  {
    var w := log[i].word;
    if forall k :: i < k < j ==> log[k] == Quiet || log[k] == Committed(w) {
      StillRemembered(init, log[..j], i, w);
      assert false;
    }
  }

  /** When the first frame of a run that is not quiet commits, it commits a
      word other than the one remembered at the start of the run. */
  lemma FirstCommitIsNew(f: Frame, actions: seq<string>, obs: seq<Observation>, j: nat)
    requires Labels(actions) && FrameConsistent(f, |actions|) && Observable(obs, |actions|)
    requires j < |obs| && Frames(f, actions, obs).log[j].Committed?
    requires forall k :: 0 <= k < j ==> Frames(f, actions, obs).log[k] == Quiet
    ensures f.smoothing.lastCommit != Some(Frames(f, actions, obs).log[j].word)
  {
    var log := Frames(f, actions, obs).log;
    CommitsAreNew(f, actions, obs);
    QuietRemembers(f.smoothing.lastCommit, log[..j]);
  }

  /** A log of quiet frames leaves the remembered word alone. */
  lemma {:induction false} QuietRemembers(init: Option<string>, log: seq<Event>)
    requires forall k :: 0 <= k < |log| ==> log[k] == Quiet
    ensures Remembered(init, log) == init
  {
    if log != [] {
      QuietRemembers(init, log[..|log| - 1]);
    }
  }

  /** The countdown after a hands-absent frame reaches zero exactly when that
      frame clears the sentence and forgets the last word. */
  lemma CountdownZeroClears(f: Frame, actions: seq<string>, keypoints: seq<real>, probs: seq<real>, now: real)
    requires 0 < |actions| && |probs| == |actions| && FrameConsistent(f, |actions|)
    ensures var g := FrameStep(f, actions, false, keypoints, probs, now).frame;
      && Countdown(g, now).Some?
      && (Countdown(g, now) == Some(0.0) ==> g.sentence == [] && g.smoothing.lastCommit == None)
      && (Countdown(g, now) != Some(0.0) ==> g.sentence == f.sentence && g.smoothing.lastCommit == f.smoothing.lastCommit)
  {
  }
}
