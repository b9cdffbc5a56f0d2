/** The hands-gated recognizer of `asl.py`: a stabilizer that turns the
    classifier's per-frame probability vectors into committed words (majority
    vote, confidence gates, hold debounce, repeat delay), and the per-frame
    presence logic around it (presence history, idle timer, sentence). */
module Asl {
  import opened Common
  import opened Voting

  const SEQUENCE_LENGTH: nat := 30
  const FEATURE_DIM: nat := 258
  const WINDOW: nat := 10
  const IDLE_THRESH: real := 0.4
  const COMMIT_THRESH: real := 0.5
  const HOLD_TIME: real := 0.5
  const HAND_RATIO_THRESH: real := 0.5
  const CLEAR_IDLE_SECONDS: real := 10.0
  const REPEAT_DELAY_SECONDS: real := 5.0
  /** The sentence keeps the last this many committed words. */
  const SENTENCE_WORDS: nat := 5

  /** The smoothing state: the prediction history, the label being held and
      since when, and the last committed word and when it was committed. */
  datatype Smoothing = Smoothing(
    predHist: seq<nat>,
    holdLabel: Option<nat>,
    holdStart: Option<real>,
    lastCommit: Option<string>,
    lastCommitTime: Option<real>)

  /** What every reachable smoothing state satisfies, for `labels` labels. */
  predicate Consistent(m: Smoothing, labels: nat)
  {
    && |m.predHist| <= WINDOW
    && (forall k :: 0 <= k < |m.predHist| ==> m.predHist[k] < labels)
    && (m.holdLabel.None? <==> m.holdStart.None?)
    && (m.lastCommit.None? <==> m.lastCommitTime.None?)
  }

  /** `reset_prediction_state`: forget the history and the hold, keep the
      commit memory. */
  function Reset(m: Smoothing): (r: Smoothing)
    ensures r.predHist == [] && r.holdLabel == None && r.holdStart == None
    ensures r.lastCommit == m.lastCommit && r.lastCommitTime == m.lastCommitTime
  {
    m.(predHist := [], holdLabel := None, holdStart := None)
  }

  lemma ResetIdempotent(m: Smoothing)
    ensures Reset(Reset(m)) == Reset(m)
  {
  }

  /** The commit memory is the part of the state only a commit or a long idle
      period changes. */
  predicate SameCommitMemory(m: Smoothing, m': Smoothing)
  {
    m'.lastCommit == m.lastCommit && m'.lastCommitTime == m.lastCommitTime
  }

  /** The prediction history once the argmax of `probs` is voted in: appended
      at the end, the oldest entry evicted beyond WINDOW. */
  function Voted(m: Smoothing, probs: seq<real>): (h: seq<nat>)
    requires |probs| > 0
    ensures 0 < |h| <= WINDOW
  {
    KeepLast(m.predHist + [ArgMax(probs)], WINDOW)
  }

  /** The majority label of the updated history. */
  function Majority(m: Smoothing, probs: seq<real>): nat
    requires |probs| > 0
  {
    MostCommon(Voted(m, probs))
  }

  /** Every label the voted history holds, and so its majority, is a valid
      index into the label list. */
  lemma VotedBelow(m: Smoothing, probs: seq<real>, labels: nat)
    requires Consistent(m, labels) && |probs| == labels && labels > 0
    ensures forall k :: 0 <= k < |Voted(m, probs)| ==> Voted(m, probs)[k] < labels
    ensures Majority(m, probs) < labels
  {
    KeepLastIsSuffix(m.predHist + [ArgMax(probs)], WINDOW);
  }

  /** The repeat rule: the word may be committed if it differs from the last
      committed one, or REPEAT_DELAY_SECONDS have passed since that commit. */
  predicate MayRepeat(m: Smoothing, word: string, now: real)
  {
    m.lastCommit != Some(word)
    || (m.lastCommitTime.Some? && now - m.lastCommitTime.value >= REPEAT_DELAY_SECONDS)
  }

  /** The condition under which `update_prediction` commits: confident
      enough, full window, the majority already held for HOLD_TIME, and the
      repeat rule satisfied. */
  predicate Commits(m: Smoothing, actions: seq<string>, probs: seq<real>, now: real)
    requires 0 < |actions| && |probs| == |actions| && Consistent(m, |actions|)
  {
    && Confidence(probs) >= COMMIT_THRESH
    && |Voted(m, probs)| == WINDOW
    && m.holdLabel == Some(Majority(m, probs))
    && now - m.holdStart.value >= HOLD_TIME
    && MayRepeat(m, actions[Majority(m, probs)], now)
  }

  datatype Update = Update(memory: Smoothing, out: Prediction)

  /** `update_prediction(probs)` with the clock reading `now`: the new
      smoothing state and the (committed, live label, live confidence)
      triple. */
  function Step(m: Smoothing, actions: seq<string>, probs: seq<real>, now: real): (r: Update)
    requires 0 < |actions| && |probs| == |actions| && Consistent(m, |actions|)
    ensures Consistent(r.memory, |actions|)
  {
    var pred := ArgMax(probs);
    var conf := probs[pred];
    if conf < IDLE_THRESH then
      Update(Reset(m), Prediction("", "Idle", conf))
    else
      VotedBelow(m, probs, |actions|);
      Decision(m.(predHist := Voted(m, probs)), actions, pred, conf, now)
  }

  /** What `update_prediction` promises, gate by gate. */
  lemma StepCases(m: Smoothing, actions: seq<string>, probs: seq<real>, now: real)
    requires 0 < |actions| && |probs| == |actions| && Consistent(m, |actions|)
    // the live confidence is the largest probability
    ensures Step(m, actions, probs, now).out.conf == Confidence(probs)
    // idle gate: history and hold cleared, commit memory kept, "Idle" shown
    ensures var r := Step(m, actions, probs, now);
      Confidence(probs) < IDLE_THRESH ==>
        r.out == Prediction("", "Idle", Confidence(probs)) && r.memory == Reset(m)
    // otherwise the prediction enters the window and the oldest leaves
    ensures var r := Step(m, actions, probs, now);
      Confidence(probs) >= IDLE_THRESH ==> r.memory.predHist == Voted(m, probs)
    // warm-up: while the window is short nothing commits, the argmax label is shown
    ensures var r := Step(m, actions, probs, now);
      Confidence(probs) >= IDLE_THRESH && |Voted(m, probs)| < WINDOW ==>
        && r.out == Prediction("", actions[ArgMax(probs)], Confidence(probs))
        && r.memory == m.(predHist := Voted(m, probs))
    // once the window is full the majority label is shown
    ensures var r := Step(m, actions, probs, now);
      Confidence(probs) >= IDLE_THRESH && |Voted(m, probs)| == WINDOW ==>
        r.out.live == actions[Majority(m, probs)]
    // the commit gate: too little confidence leaves hold and commit memory alone
    ensures var r := Step(m, actions, probs, now);
      IDLE_THRESH <= Confidence(probs) < COMMIT_THRESH ==>
        r.out.committed == "" && r.memory == m.(predHist := Voted(m, probs))
    // debounce: a new majority restarts the hold at now and never commits
    ensures var r := Step(m, actions, probs, now);
      (&& Confidence(probs) >= COMMIT_THRESH
       && |Voted(m, probs)| == WINDOW
       && m.holdLabel != Some(Majority(m, probs))) ==>
        && r.out.committed == ""
        && r.memory == m.(predHist := Voted(m, probs), holdLabel := Some(Majority(m, probs)),
                          holdStart := Some(now))
    // waiting: the majority is already held, but the hold is too young or the
    // word is a repeat inside the repeat rule; the majority is shown, nothing commits
    ensures var r := Step(m, actions, probs, now);
      (&& Confidence(probs) >= COMMIT_THRESH
       && |Voted(m, probs)| == WINDOW
       && m.holdLabel == Some(Majority(m, probs))
       && !Commits(m, actions, probs, now)) ==>
        && r.out == Prediction("", actions[Majority(m, probs)], Confidence(probs))
        && r.memory == m.(predHist := Voted(m, probs))
    // a commit happens exactly under Commits; it records the word and the time
    // and leaves the hold in place
    ensures var r := Step(m, actions, probs, now);
      Commits(m, actions, probs, now) ==>
        && r.out.committed == actions[Majority(m, probs)]
        && r.memory == m.(predHist := Voted(m, probs), lastCommit := Some(r.out.committed),
                          lastCommitTime := Some(now))
    ensures var r := Step(m, actions, probs, now);
      !Commits(m, actions, probs, now) ==>
        r.out.committed == "" && SameCommitMemory(m, r.memory)
  {
  }

  /** The rest of `update_prediction` once the prediction `pred`, of
      probability `conf`, is in the window of `v`: warm-up, commit threshold,
      hold debounce and repeat rule. */
  function Decision(v: Smoothing, actions: seq<string>, pred: nat, conf: real, now: real): (r: Update)
    requires pred < |actions| && 0 < |v.predHist| && Consistent(v, |actions|)
    ensures Consistent(r.memory, |actions|)
  {
    if |v.predHist| < WINDOW then
      Update(v, Prediction("", actions[pred], conf))
    else
      var maj := MostCommon(v.predHist);
      if conf < COMMIT_THRESH then
        Update(v, Prediction("", actions[maj], conf))
      else if v.holdLabel != Some(maj) then
        Update(v.(holdLabel := Some(maj), holdStart := Some(now)), Prediction("", actions[maj], conf))
      else if now - v.holdStart.value >= HOLD_TIME && MayRepeat(v, actions[maj], now) then
        var word := actions[maj];
        Update(v.(lastCommit := Some(word), lastCommitTime := Some(now)), Prediction(word, actions[maj], conf))
      else
        Update(v, Prediction("", actions[maj], conf))
  }

  /** The state of the whole frame loop: the smoothing state, the keypoint
      window fed to the classifier, the sentence, the presence history and the
      idle timer (start of the current hands-absent stretch). */
  datatype Frame = Frame(
    smoothing: Smoothing,
    sequence: seq<seq<real>>,
    sentence: seq<string>,
    handHistory: seq<bool>,
    lastHandTime: Option<real>)

  /** The bounds the frame loop keeps on its own lists. */
  predicate LoopConsistent(sequence: seq<seq<real>>, sentence: seq<string>, handHistory: seq<bool>)
  {
    && |sequence| <= SEQUENCE_LENGTH
    && (forall k :: 0 <= k < |sequence| ==> |sequence[k]| == FEATURE_DIM)
    && |sentence| <= SENTENCE_WORDS
    && |handHistory| <= SEQUENCE_LENGTH
  }

  predicate FrameConsistent(f: Frame, labels: nat)
  {
    Consistent(f.smoothing, labels) && LoopConsistent(f.sequence, f.sentence, f.handHistory)
  }

  /** The state before the first frame. */
  function Initial(): (f: Frame)
    ensures forall labels :: FrameConsistent(f, labels)
  {
    Frame(Smoothing([], None, None, None, None), [], [], [], None)
  }

  /** The keypoint vector as stored: one of the wrong length is replaced by zeros. */
  function Normalized(keypoints: seq<real>): (v: seq<real>)
    ensures |v| == FEATURE_DIM
    ensures |keypoints| == FEATURE_DIM ==> v == keypoints
  {
    if |keypoints| != FEATURE_DIM then Zeros(FEATURE_DIM) else keypoints
  }

  /** Whether the classifier is consulted on a hands-present frame, judged on
      the updated presence history and keypoint window. */
  predicate Gate(f: Frame)
  {
    && |f.handHistory| > 0
    && HandsEnough(f.handHistory, HAND_RATIO_THRESH)
    && |f.sequence| == SEQUENCE_LENGTH
  }

  datatype Tick = Tick(frame: Frame, out: Prediction)

  /** One pass of the webcam loop: `present` is the hand detector's verdict,
      `keypoints` the extracted features, `probs` what the classifier returns
      for the current keypoint window (read only when the gate opens), and
      `now` the clock reading of the frame. */
  function FrameStep(f: Frame, actions: seq<string>, present: bool, keypoints: seq<real>,
                     probs: seq<real>, now: real): (r: Tick)
    requires 0 < |actions| && |probs| == |actions| && FrameConsistent(f, |actions|)
    ensures FrameConsistent(r.frame, |actions|)
    // the presence history is a FIFO of the last SEQUENCE_LENGTH verdicts
    ensures r.frame.handHistory == KeepLast(f.handHistory + [present], SEQUENCE_LENGTH)
    // the idle timer is cancelled by a hands-present frame ...
    ensures present ==> r.frame.lastHandTime == None
    // ... and started only by the first hands-absent frame
    ensures !present ==>
      r.frame.lastHandTime == if f.lastHandTime.None? then Some(now) else f.lastHandTime
    // every absent frame empties the keypoint window and the history and hold
    ensures !present ==>
      && r.frame.sequence == []
      && r.frame.smoothing == Reset(r.frame.smoothing)
      && r.out == Prediction("", "(no hands visible)", 0.0)
    // absence of at least CLEAR_IDLE_SECONDS also clears sentence and commit memory;
    // a shorter absence keeps both
    ensures !present ==>
      if now - r.frame.lastHandTime.value >= CLEAR_IDLE_SECONDS then
        r.frame.sentence == [] && r.frame.smoothing == Smoothing([], None, None, None, None)
      else
        r.frame.sentence == f.sentence && r.frame.smoothing == Reset(f.smoothing)
    // a present frame pushes its keypoints into the window
    ensures present ==>
      r.frame.sequence == KeepLast(f.sequence + [Normalized(keypoints)], SEQUENCE_LENGTH)
    // the classifier runs only with enough hands and a full window
    ensures present && !Gate(r.frame) ==>
      && r.frame.smoothing == f.smoothing
      && r.frame.sentence == f.sentence
      && r.out == Prediction("", "Reading...", 0.0)
    ensures present && Gate(r.frame) ==>
      var u := Step(f.smoothing, actions, probs, now);
      && r.frame.smoothing == u.memory
      && r.out == u.out
      && r.frame.sentence ==
         if u.out.committed != "" then KeepLast(f.sentence + [u.out.committed], SENTENCE_WORDS)
         else f.sentence
    // a committed word is appended to the sentence, which keeps its last five words
    ensures r.out.committed != "" ==>
      && present && Gate(r.frame)
      && r.frame.sentence == KeepLast(f.sentence + [r.out.committed], SENTENCE_WORDS)
  {
    var g := f.(handHistory := KeepLast(f.handHistory + [present], SEQUENCE_LENGTH));
    if present then Present(g, actions, keypoints, probs, now) else Absent(g, now)
  }

  /** The hands-absent branch of the loop body, on a state whose presence
      history already holds this frame. */
  function Absent(f: Frame, now: real): (r: Tick)
    ensures r.frame.handHistory == f.handHistory
    ensures r.frame.lastHandTime == Some(if f.lastHandTime.None? then now else f.lastHandTime.value)
    ensures r.frame.sequence == [] && r.frame.smoothing == Reset(r.frame.smoothing)
    ensures r.out == Prediction("", "(no hands visible)", 0.0)
    ensures if now - r.frame.lastHandTime.value >= CLEAR_IDLE_SECONDS then
        r.frame.sentence == [] && r.frame.smoothing == Smoothing([], None, None, None, None)
      else
        r.frame.sentence == f.sentence && r.frame.smoothing == Reset(f.smoothing)
  {
    var started := if f.lastHandTime.None? then now else f.lastHandTime.value;
    var cleared :=
      if now - started >= CLEAR_IDLE_SECONDS then
        f.(sentence := [], smoothing := Reset(f.smoothing.(lastCommit := None, lastCommitTime := None)))
      else f;
    Tick(cleared.(lastHandTime := Some(started), sequence := [], smoothing := Reset(cleared.smoothing)),
         Prediction("", "(no hands visible)", 0.0))
  }

  /** The hands-present branch of the loop body, on a state whose presence
      history already holds this frame. */
  function Present(f: Frame, actions: seq<string>, keypoints: seq<real>, probs: seq<real>,
                   now: real): (r: Tick)
    requires 0 < |actions| && |probs| == |actions| && Consistent(f.smoothing, |actions|)
    ensures r.frame.handHistory == f.handHistory && r.frame.lastHandTime == None
    ensures r.frame.sequence == KeepLast(f.sequence + [Normalized(keypoints)], SEQUENCE_LENGTH)
    ensures !Gate(r.frame) ==>
      && r.frame.smoothing == f.smoothing
      && r.frame.sentence == f.sentence
      && r.out == Prediction("", "Reading...", 0.0)
    ensures Gate(r.frame) ==>
      && r.out == Step(f.smoothing, actions, probs, now).out
      && r.frame.smoothing == Step(f.smoothing, actions, probs, now).memory
      && r.frame.sentence ==
         if r.out.committed != "" then KeepLast(f.sentence + [r.out.committed], SENTENCE_WORDS)
         else f.sentence
  {
    var g := f.(lastHandTime := None,
                sequence := KeepLast(f.sequence + [Normalized(keypoints)], SEQUENCE_LENGTH));
    if Gate(g) then Consult(g, actions, probs, now)
    else
      Tick(g, Prediction("", "Reading...", 0.0))
  }

  /** The classifier call of a hands-present frame: run the stabilizer and
      append a committed word to the sentence, keeping its last five words. */
  function Consult(f: Frame, actions: seq<string>, probs: seq<real>, now: real): (r: Tick)
    requires 0 < |actions| && |probs| == |actions| && Consistent(f.smoothing, |actions|)
    // the stabilizer decides; the keypoint window, presence history and timer stay
    ensures r.out == Step(f.smoothing, actions, probs, now).out
    ensures r.frame == f.(smoothing := Step(f.smoothing, actions, probs, now).memory, sentence := r.frame.sentence)
    // a committed word ends the sentence, which keeps at most its last five words
    ensures r.out.committed != "" ==>
      && r.frame.sentence == KeepLast(f.sentence + [r.out.committed], SENTENCE_WORDS)
      && r.frame.sentence[|r.frame.sentence| - 1] == r.out.committed
    ensures r.out.committed == "" ==> r.frame.sentence == f.sentence
    ensures |f.sentence| <= SENTENCE_WORDS ==> |r.frame.sentence| <= SENTENCE_WORDS
  {
    var u := Step(f.smoothing, actions, probs, now);
    var sentence :=
      if u.out.committed != "" then KeepLast(f.sentence + [u.out.committed], SENTENCE_WORDS)
      else f.sentence;
    Tick(f.(smoothing := u.memory, sentence := sentence), u.out)
  }

  /** The recognizer's state, held in fields the way the script holds it in
      module globals. */
  class Recognizer {
    const actions: seq<string>
    var predHist: seq<nat>
    var holdLabel: Option<nat>
    var holdStart: Option<real>
    var lastCommit: Option<string>
    var lastCommitTime: Option<real>
    var sequence: seq<seq<real>>
    var sentence: seq<string>
    var handHistory: seq<bool>
    var lastHandTime: Option<real>

    function SmoothingState(): Smoothing
      reads this
    {
      Smoothing(predHist, holdLabel, holdStart, lastCommit, lastCommitTime)
    }

    function State(): Frame
      reads this
    {
      Frame(SmoothingState(), sequence, sentence, handHistory, lastHandTime)
    }

    ghost predicate Valid()
      reads this
    {
      && 0 < |actions|
      && Consistent(SmoothingState(), |actions|)
      && LoopConsistent(sequence, sentence, handHistory)
    }

    /** The labels are loaded once, before the first frame. */
    constructor (labels: seq<string>)
      requires 0 < |labels|
      ensures Valid() && actions == labels && State() == Initial()
    {
      actions := labels;
      predHist, holdLabel, holdStart := [], None, None;
      lastCommit, lastCommitTime := None, None;
      sequence, sentence, handHistory, lastHandTime := [], [], [], None;
    }

    method ResetPredictionState()
      requires Valid()
      modifies this
      ensures Valid()
      ensures State() == old(State()).(smoothing := Reset(old(SmoothingState())))
    {
      predHist := [];
      holdLabel := None;
      holdStart := None;
    }

    method UpdatePrediction(probs: seq<real>, now: real) returns (out: Prediction)
      requires Valid() && |probs| == |actions|
      modifies this
      ensures Valid()
      ensures SmoothingState() == Step(old(SmoothingState()), actions, probs, now).memory
      ensures out == Step(old(SmoothingState()), actions, probs, now).out
      ensures sequence == old(sequence) && sentence == old(sentence)
      ensures handHistory == old(handHistory) && lastHandTime == old(lastHandTime)
    {
      var pred := ArgMax(probs);
      var conf := probs[pred];
      if conf < IDLE_THRESH {
        ResetPredictionState();
        return Prediction("", "Idle", conf);
      }
      ghost var m := SmoothingState();
      VotedBelow(m, probs, |actions|);
      // append, and pop the oldest entry once there are more than WINDOW
      predHist := KeepLast(predHist + [pred], WINDOW);
      out := Decide(pred, conf, now);
    }

    /** `update_prediction` past the vote. */
    method Decide(pred: nat, conf: real, now: real) returns (out: Prediction)
      requires Valid() && pred < |actions| && 0 < |predHist|
      modifies this
      ensures Valid()
      ensures SmoothingState() == Decision(old(SmoothingState()), actions, pred, conf, now).memory
      ensures out == Decision(old(SmoothingState()), actions, pred, conf, now).out
      ensures sequence == old(sequence) && sentence == old(sentence)
      ensures handHistory == old(handHistory) && lastHandTime == old(lastHandTime)
    {
      if |predHist| < WINDOW {
        return Prediction("", actions[pred], conf);
      }
      var maj := MostCommon(predHist);
      if conf < COMMIT_THRESH {
        return Prediction("", actions[maj], conf);
      }
      if holdLabel != Some(maj) {
        holdLabel, holdStart := Some(maj), Some(now);
        return Prediction("", actions[maj], conf);
      }
      if now - holdStart.value >= HOLD_TIME {
        var word := actions[maj];
        if lastCommit != Some(word) || (lastCommitTime.Some? && now - lastCommitTime.value >= REPEAT_DELAY_SECONDS) {
          lastCommit, lastCommitTime := Some(word), Some(now);
          return Prediction(word, actions[maj], conf);
        }
      }
      return Prediction("", actions[maj], conf);
    }

    /** One pass of the webcam loop body. */
    method Tick(present: bool, keypoints: seq<real>, probs: seq<real>, now: real)
      returns (out: Prediction)
      requires Valid() && |probs| == |actions|
      modifies this
      ensures Valid()
      ensures var t := FrameStep(old(State()), actions, present, keypoints, probs, now);
        State() == t.frame && out == t.out
    {
      handHistory := handHistory + [present];
      handHistory := KeepLast(handHistory, SEQUENCE_LENGTH);
      if !present {
        out := NoHands(now);
      } else {
        out := Hands(keypoints, probs, now);
      }
    }

    /** The hands-absent branch: start the idle timer, clear the sentence
        after a long absence, and drop the keypoint window and the vote. */
    method NoHands(now: real) returns (out: Prediction)
      requires Valid()
      modifies this
      ensures Valid()
      ensures State() == Absent(old(State()), now).frame && out == Absent(old(State()), now).out
    {
      if lastHandTime.None? {
        lastHandTime := Some(now);
      }
      var idleFor := now - lastHandTime.value;
      if idleFor >= CLEAR_IDLE_SECONDS {
        sentence := [];
        lastCommit, lastCommitTime := None, None;
        ResetPredictionState();
      }
      sequence := [];
      ResetPredictionState();
      out := Prediction("", "(no hands visible)", 0.0);
    }

    /** The hands-present branch: cancel the idle timer, push the keypoints,
        and consult the classifier once enough hands and a full window are seen. */
    method Hands(keypoints: seq<real>, probs: seq<real>, now: real) returns (out: Prediction)
      requires Valid() && |probs| == |actions| && |handHistory| > 0
      modifies this
      ensures Valid()
      ensures var t := Present(old(State()), actions, keypoints, probs, now);
        State() == t.frame && out == t.out
    {
      lastHandTime := None;
      var kp := keypoints;
      if |kp| != FEATURE_DIM {
        kp := Zeros(FEATURE_DIM);
      }
      sequence := sequence + [kp];
      sequence := KeepLast(sequence, SEQUENCE_LENGTH);
      out := Prediction("", "Reading...", 0.0);
      var handsEnough := (CountTrue(handHistory) as real) / (|handHistory| as real) >= HAND_RATIO_THRESH;
      if handsEnough && |sequence| == SEQUENCE_LENGTH {
        out := Classify(probs, now);
      }
    }

    /** The classifier branch: one stabilizer update, and a committed word
        spoken into the sentence. */
    method Classify(probs: seq<real>, now: real) returns (out: Prediction)
      requires Valid() && |probs| == |actions|
      modifies this
      ensures Valid()
      ensures var t := Consult(old(State()), actions, probs, now);
        State() == t.frame && out == t.out
    {
      out := UpdatePrediction(probs, now);
      if out.committed != "" {
        sentence := sentence + [out.committed];
        sentence := KeepLast(sentence, SENTENCE_WORDS);
      }
    }
  }
}
