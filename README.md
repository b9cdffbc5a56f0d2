# Audibly sign and caption core in Dafny

This project models the core of Audibly. Audibly is a webcam tool that reads
American Sign Language and shows the recognized words. It also puts speech
captions on a virtual camera. The model covers three parts:

- **The sign stabilizer of `asl.py`.** It turns each frame's classifier
  probability vector into committed words. A word must pass these steps:
  - an idle gate on the largest probability;
  - a majority vote over the last WINDOW predictions;
  - a commit threshold;
  - a hold debounce;
  - a repeat delay between two commits of the same word.

  The frame loop around it keeps a presence history and a keypoint window.
  It also runs an idle timer that clears the sentence after a long absence of
  hands, and a five-word sentence.
- **The demo loop of `ml/test.py`.** This is the same pipeline with its own
  constants. It has no repeat delay: two commits of the same word always have
  a long idle clear or a commit of a different word between them. It also
  draws a countdown hint while hands are down.
- **The caption side of `speech_to_text.py`.** This is the greedy word wrap of
  a transcript into lines that fit the frame, with a fallback that breaks a
  word into characters. It also covers the caption state that the recognizer
  thread updates and the video loop hides after CAPTION_TIMEOUT seconds.

Modules and files:

| file | module | contents |
|---|---|---|
| `common.dfy` | `Common` | `Option`, the prediction triple, Python's `xs[-n:]` and `sum(flags)` |
| `voting.dfy` | `Voting` | `np.argmax` and `Counter.most_common(1)`, with their tie-breaks |
| `asl.dfy` | `Asl` | the smoothing state and the frame state as values, `Step` and `FrameStep` as their specifications, and the class `Recognizer` holding the script's globals as fields |
| `asl_runs.dfy` | `AslRuns` | properties over many calls and frames: repeat delay, warm-up, idle timer, long-idle clear |
| `ml_demo.dfy` | `MlDemo` | the same for `ml/test.py`, plus the countdown hint |
| `ml_runs.dfy` | `MlRuns` | the no-repeat rule over frames, and the countdown reaching zero exactly on a clear |
| `captions.dfy` | `Captions` | `str.split`, `str.strip`, `wrap_text` and the caption timeout |

Each method that changes state is proved against a function of the old
state:
- `Recognizer.UpdatePrediction` ends in `Step(old state, …)`.
- `Recognizer.Tick` ends in `FrameStep(old state, …)`.
- The class invariant `Valid` is kept.

The properties are then proved about those functions. The loops of
`wrap_text` are the methods `PlaceWords` (over the words) and `BreakWord`
(over the characters of a word too wide for a line), and `WrapText` calls
them. Each ends in a function of its input: `Place`, `BreakChars` and
`Wrap` are the loops written as recursion over the words or characters
seen so far. The greedy rule, the fitting of every test line, and the
keeping of the text's characters are proved about the loops' results.

Time, the hand detector's verdict, the keypoints and the classifier output
are parameters. Text measurement (`cv2.getTextSize` at the caption font) is
the parameter `width: string -> int`.

## Model

| member | source | states |
|---|---|---|
| Common.KeepLast | asl.py:224 | `xs[-n:]` keeps `min(len(xs), n)` elements |
| Common.KeepLastIsSuffix | asl.py:224 | the kept elements are the trailing elements of `xs`, in order |
| Common.CountTrue | asl.py:264 | `sum(flags)` is at most `len(flags)`; it equals `len(flags)` iff every flag is true, and is 0 iff none is |
| Common.HandsEnoughCount | asl.py:264 | `sum(hand_history) / len(hand_history) >= HAND_RATIO_THRESH` holds exactly when the count of present frames is at least the threshold times the history length |
| Common.Zeros | asl.py:255-256 | the substitute feature vector has FEATURE_DIM entries, all 0.0 |
| Voting.ArgMax | asl.py:144 | the index is in range |
| Voting.FirstMaxBefore | asl.py:144 | the scan over the first n entries returns an index below n |
| Voting.FirstMaxBeforeIsFirstMax | asl.py:144 | the scan's index holds a largest entry of the prefix, and every earlier entry is strictly smaller |
| Voting.ArgMaxIsFirstMax | asl.py:144-145 | `np.argmax` picks a largest probability, at the lowest index among equal largest ones; the live confidence is that probability |
| Voting.Confidence | asl.py:145 | the live confidence is one of the probabilities and none is larger |
| Voting.MostCommon | asl.py:159 | the majority is an entry of the history |
| Voting.MostCommonAt | asl.py:159 | the scan over the first n positions returns a position below n |
| Voting.MostCommonAtIsFirstOfLargest | asl.py:159 | the scan's position has a largest count, and comes no later than any position of equal count |
| Voting.MostCommonIsMajority | asl.py:159 | `most_common(1)` returns a label of largest count; on a tie, the one whose first occurrence comes first |
| Asl.Reset | asl.py:132-136 | `reset_prediction_state` empties the history and the hold, and keeps the last commit and its time |
| Asl.ResetIdempotent | asl.py:132-136 | resetting an already reset state changes nothing |
| Asl.Voted | asl.py:152-154 | after the append and the pop, the history is non-empty and holds at most WINDOW entries |
| Asl.VotedBelow | asl.py:152-159 | every label in the updated history, and so the majority, is a valid index into the labels |
| Asl.Step | asl.py:138-180 | `update_prediction` keeps the smoothing state consistent: bounded window, valid labels, hold label and start set together, last commit and its time set together |
| Asl.StepCases | asl.py:144-180 | each gate of `update_prediction`, as listed below this table |
| Asl.MayRepeat | asl.py:174-175 | definition of the repeat rule: a word other than the last commit, or one whose last commit is at least REPEAT_DELAY_SECONDS old; tied to `Step` by `AslRuns.StepRepeat` and over runs by `AslRuns.RepeatDelay` |
| Asl.Commits | asl.py:156-178 | definition of when a call commits: a full window, confidence at least COMMIT_THRESH, the majority already held for HOLD_TIME, and `MayRepeat` of its word; tied to `Step` by `AslRuns.StepCommit` |
| Asl.Decision | asl.py:156-180 | the part of `update_prediction` after the vote keeps the smoothing state consistent |
| Asl.Initial | asl.py:126-130 | the state before the first frame is consistent for any label count |
| Asl.Normalized | asl.py:254-256 | the stored keypoint vector has FEATURE_DIM entries; a vector of the right length is kept as it is |
| Asl.Gate | asl.py:264-266 | definition of the classifier gate: a hand ratio of at least HAND_RATIO_THRESH over the presence history and a full keypoint window; `Present` and `FrameStep` consult the classifier exactly when it holds |
| Asl.FrameStep | asl.py:215-275 | one pass of the webcam loop, as listed below this table |
| Asl.Absent | asl.py:230-248 | a hands-absent frame keeps the presence history, starts the idle timer only when it is off, empties the keypoint window and the vote, and shows "(no hands visible)"; an absence of at least CLEAR_IDLE_SECONDS also empties the sentence and the whole smoothing state, a shorter one keeps the sentence and the commit memory |
| Asl.Present | asl.py:250-269 | a hands-present frame cancels the idle timer and pushes its keypoints, keeping the last SEQUENCE_LENGTH; with too few hands or a short window it changes nothing else and shows "Reading..."; otherwise its output and smoothing state are those of `Step`, and a committed word joins the sentence |
| Asl.Consult | asl.py:266-273 | the classifier call's output and smoothing state are those of `Step`, nothing else but the sentence changes; a committed word becomes the sentence's last word and the sentence keeps its last five words; without a commit the sentence is unchanged; a sentence of at most five words stays so |
| Asl.Recognizer.constructor | asl.py:126-130 | the globals start empty and the labels are loaded |
| Asl.Recognizer.ResetPredictionState | asl.py:132-136 | only the history and the hold are reset; everything else is unchanged |
| Asl.Recognizer.UpdatePrediction | asl.py:138-180 | the new smoothing state and the returned triple are those of `Step`; the loop's lists and timer are unchanged |
| Asl.Recognizer.Decide | asl.py:156-180 | the state after the vote's early returns is that of `Decision` |
| Asl.Recognizer.Tick | asl.py:215-275 | the new globals and the frame's output are those of `FrameStep` |
| Asl.Recognizer.NoHands | asl.py:230-248 | the hands-absent branch: the new globals are those of `Absent` |
| Asl.Recognizer.Hands | asl.py:250-269 | the hands-present branch: the new globals are those of `Present` |
| Asl.Recognizer.Classify | asl.py:266-275 | the classifier branch: the new globals are those of `Consult` |
| AslRuns.Run | asl.py:138-180 | repeated calls keep the state consistent and commit at most once per call |
| AslRuns.StepCommit | asl.py:172-180 | with non-empty labels, a call commits exactly when `Commits` holds; it then records the word and the time, and otherwise keeps the commit memory |
| AslRuns.RunRemembersLastCommit | asl.py:174-178 | after a run, the commit memory holds the run's last commit, or is unchanged when nothing was committed |
| AslRuns.RepeatDelay | asl.py:174-178 | when the same word is committed twice in a row, at least REPEAT_DELAY_SECONDS pass between the two commits; the first commit is held to the same bound against the word remembered at the start |
| AslRuns.StepRepeat | asl.py:174-178 | a call that commits a word obeys the repeat rule against the commit memory it started from |
| AslRuns.RunHistoryGrowth | asl.py:152-154 | the window grows by at most one entry per call |
| AslRuns.NoCommitBeforeFullWindow | asl.py:156-157 | no word is committed while fewer than WINDOW predictions can have entered the window |
| AslRuns.Frames | asl.py:210-275 | the loop over frames keeps the frame state consistent |
| AslRuns.TimerOff | asl.py:230-252 | starting without a timer, the idle timer is off exactly when there was no frame, or the last frame showed hands |
| AslRuns.IdleTimer | asl.py:230-235 | the idle timer holds the clock reading of the first frame of the current hands-absent stretch |
| AslRuns.LongIdleClears | asl.py:235-242 | an absence of at least CLEAR_IDLE_SECONDS, from the first absent frame to the current one, empties the sentence and the whole smoothing state, commit memory included |
| MlDemo.Reset | ml/test.py:82-86 | `reset_prediction_state` empties the history and the hold, and keeps the last committed word |
| MlDemo.Voted | ml/test.py:102-104 | after the append and the pop, the history is non-empty and holds at most WINDOW entries |
| MlDemo.VotedBelow | ml/test.py:102-109 | every label in the updated history, and so the majority, is a valid index into the labels |
| MlDemo.Step | ml/test.py:88-128 | `update_prediction` keeps the smoothing state consistent |
| MlDemo.StepCases | ml/test.py:94-128 | each gate of `update_prediction`; a commit needs a word other than the last committed one, and no other call changes that word |
| MlDemo.Commits | ml/test.py:106-126 | definition of when a call commits: a full window, confidence at least COMMIT_THRESH, the majority already held for HOLD_TIME, and a word other than the last committed one; tied to `Step` by `MlRuns.StepCommit` and over runs by `MlRuns.CommitsAreNew` |
| MlDemo.Decision | ml/test.py:106-128 | the part after the vote keeps the smoothing state consistent |
| MlDemo.Initial | ml/test.py:77-80 | the state before the first frame is consistent for any label count |
| MlDemo.Normalized | ml/test.py:183-185 | the stored keypoint vector has FEATURE_DIM entries; a vector of the right length is kept as it is |
| MlDemo.Gate | ml/test.py:193-195 | definition of the classifier gate: a hand ratio of at least HAND_RATIO_THRESH and a full keypoint window; `Present` and `FrameStep` consult the classifier exactly when it holds |
| MlDemo.Absent | ml/test.py:160-177 | the hands-absent frame of the demo: the same as `Asl.Absent`, with the label "Idle (no hands)" and a long idle clear that forgets the last word |
| MlDemo.Present | ml/test.py:179-198 | the hands-present frame of the demo: the same as `Asl.Present`, with the label "Warming up..." |
| MlDemo.Consult | ml/test.py:195-202 | the classifier call of the demo: the same as `Asl.Consult` |
| MlDemo.FrameStep | ml/test.py:145-202 | one pass of the loop: the same items as for `Asl.FrameStep`, with the labels "Idle (no hands)" and "Warming up...", and a long idle clear that forgets the last word |
| MlDemo.Remaining | ml/test.py:230 | the hint is never negative; it is at most CLEAR_IDLE_SECONDS whenever the clock has not gone back since the timer started; it is 0 iff at least CLEAR_IDLE_SECONDS passed; when positive it is the time left |
| MlDemo.Countdown | ml/test.py:229-230 | the hint is drawn exactly while the idle timer runs, and its value is `Remaining` |
| MlDemo.Recognizer.constructor | ml/test.py:77-80 | the globals start empty and the labels are loaded |
| MlDemo.Recognizer.ResetPredictionState | ml/test.py:82-86 | only the history and the hold are reset |
| MlDemo.Recognizer.UpdatePrediction | ml/test.py:88-128 | the new smoothing state and the returned triple are those of `Step` |
| MlDemo.Recognizer.Decide | ml/test.py:106-128 | the state after the vote's early returns is that of `Decision` |
| MlDemo.Recognizer.Tick | ml/test.py:145-230 | the new globals and the output are those of `FrameStep`, and the hint is `Countdown` of the new state |
| MlDemo.Recognizer.NoHands | ml/test.py:160-177 | the hands-absent branch: the new globals are those of `Absent` |
| MlDemo.Recognizer.Hands | ml/test.py:179-198 | the hands-present branch: the new globals are those of `Present` |
| MlDemo.Recognizer.Classify | ml/test.py:195-202 | the classifier branch: the new globals are those of `Consult` |
| MlRuns.StepCommit | ml/test.py:122-128 | with non-empty labels, a call commits exactly when `Commits` holds; it then records the word, and otherwise keeps it |
| MlRuns.Frames | ml/test.py:140-202 | the loop over frames keeps the state consistent and logs one event per frame |
| MlRuns.RememberedWord | ml/test.py:124-170 | the last committed word is the one the events tell: set by a commit, forgotten by a long idle clear |
| MlRuns.StillRemembered | ml/test.py:124-126 | after a commit of w, frames that are quiet or commit w again leave w remembered |
| MlRuns.LogGrows | ml/test.py:140-202 | each frame appends exactly one event to the log |
| MlRuns.LastCommitIsNew | ml/test.py:124-126 | the last frame commits only a word other than the one remembered before it |
| MlRuns.FreshExtend | ml/test.py:124-126 | a log with no repeated commit stays so when an event that repeats nothing is appended |
| MlRuns.CommitsAreNew | ml/test.py:124-126 | over a run of frames, no commit repeats the word remembered just before it |
| MlRuns.NoRepeatWithoutClear | ml/test.py:124-170 | when the same word is committed on two frames, a long idle clear or a commit of a different word lies between them |
| MlRuns.FreshNoRepeat | ml/test.py:124-170 | the same, for any log in which no commit repeats the remembered word |
| MlRuns.FirstCommitIsNew | ml/test.py:124-126 | the first non-quiet frame of a run, if it commits, commits a word other than the one remembered at the start |
| MlRuns.QuietRemembers | ml/test.py:128 | quiet frames leave the remembered word alone |
| MlRuns.CountdownZeroClears | ml/test.py:160-230 | after a hands-absent frame the hint is shown; it reads 0 exactly when that frame cleared the sentence and forgot the last word, and otherwise the sentence is unchanged |
| Captions.WordLength | speech_to_text.py:119 | the length of the leading word: in range, free of white space, and followed by white space or the end |
| Captions.Split | speech_to_text.py:119 | `str.split()` returns non-empty words free of white space, and no words exactly when the text is all white space |
| Captions.SplitKeepsPrintable | speech_to_text.py:119 | concatenating the words gives the text with its white space removed |
| Captions.PrintableOfJoin | speech_to_text.py:128 | `' '.join` of words without white space, with the white space removed, is their concatenation (also used for the joins at lines 137 and 160) |
| Captions.JoinStartsWith | speech_to_text.py:128 | `' '.join` of words starts with the first word, followed by a space when there are more (the same join runs at lines 137 and 160) |
| Captions.SplitIsMaximal | speech_to_text.py:119 | `str.split()` splits at every run of white space and only there: the text is its words with runs of white space between and around them, and every inner run is non-empty |
| Captions.BreakWord | speech_to_text.py:140-154 | the character loop ends in `BreakChars` of the word; it cuts the word into lines that fit or are one character wide; its last piece is non-empty and fits; the pieces concatenate back to the word; every piece it emits is full: the pieces up to it spell a prefix of the word, and the next character of the word does not fit on it; every test piece it built on the way fitted: each prefix of two or more characters of a piece is at most the width |
| Captions.CharStep | speech_to_text.py:143-150 | definition of one turn of the character loop: a character that would make a non-empty piece too wide finishes it and opens the next, any other joins the piece; `PieceClosed` and `PieceExtended` keep the loop invariant across it |
| Captions.BreakChars | speech_to_text.py:142-150 | definition of the character loop over a word as a fold of `CharStep`; `BreakWord` is proved to end in it |
| Captions.PieceClosed | speech_to_text.py:145-147 | a character that does not fit closes the piece, which is then full, and the loop invariant holds again |
| Captions.PieceExtended | speech_to_text.py:148-149 | a character that fits, or the first one, extends the piece, and the loop invariant holds again, its new test piece having fitted |
| Captions.JoinsFitExtend | speech_to_text.py:127-132 | a word added after a space to a line that fits keeps every test line of the line fitting |
| Captions.Appended | speech_to_text.py:127-132 | a word that fits is added to the open line, and the loop invariant holds again |
| Captions.GreedyAppended | speech_to_text.py:131-132 | adding a word to the open line keeps every finished line's reason for ending |
| Captions.OpenLineEnded | speech_to_text.py:133-136 | the open line, finished because the word after a space does not fit on it, ends exactly before that word: the lines up to it hold the words before it |
| Captions.PieceEnded | speech_to_text.py:145-147 | a piece emitted by the character loop ends inside its word: the lines up to it hold the words before the word and the first `j` characters of it, and character `j` does not fit on it |
| Captions.GreedyNewLine | speech_to_text.py:133-156 | finishing the open line because the word does not fit next to it, and opening a new one (or the pieces of a broken word), keeps every finished line's reason for ending and records one for each new finished line |
| Captions.GreedyLines | speech_to_text.py:158-162 | every output line but the last is full: the lines up to it hold exactly the words before some word, and that word after a space does not fit on it; or they hold the words before a word too wide on its own and the first characters of it, and the next character does not fit on it |
| Captions.AddWord | speech_to_text.py:126-156 | one pass of the word loop ends in `WordStep` of the state and keeps the loop invariant and the greedy invariant |
| Captions.NewLine | speech_to_text.py:133-156 | the branch for a word that does not fit ends in `NextLine` of the state and keeps both invariants |
| Captions.PlaceWords | speech_to_text.py:126-156 | the word loop ends in `Place` of the words, with both invariants over all the words |
| Captions.WordStep | speech_to_text.py:127-156 | definition of one turn of the word loop: the word joins the open line when the joined test line fits, else `NextLine`; `AddWord` and `NewLine` are proved to compute it |
| Captions.NextLine | speech_to_text.py:135-156 | definition of the overflow branch: the open line is finished, then a word too wide alone is cut by `BreakChars` with its last piece left open, and any other word opens the next line; `NewLine` is proved to compute it |
| Captions.Place | speech_to_text.py:126-156 | definition of the word loop as a fold of `WordStep`; `PlaceWords` is proved to end in it |
| Captions.Wrapped | speech_to_text.py:158-162 | flushing the open line at the end gives lines with every property `WrapText` states |
| Captions.NothingToWrap | speech_to_text.py:119-121 | a text without words is all white space, and the empty result keeps its characters |
| Captions.Flush | speech_to_text.py:133-136 | finishing the open line keeps every line good, with its test lines fitted, and keeps the text's characters |
| Captions.Restarted | speech_to_text.py:155-156 | a word that does not fit on the open line but fits alone opens the next line, and the invariant holds again |
| Captions.Broken | speech_to_text.py:137-154 | a word too wide on its own is broken into the character loop's lines, and the invariant holds again |
| Captions.WrapText | speech_to_text.py:117-162 | the lines are `Wrap` of the text; no lines exactly when the text is all white space; no empty line; every line fits the width or is a single character; every test line the loop built on the way to a line fitted; the lines hold the text's characters in order, white space aside; when every word fits alone, joining the lines gives `' '.join(text.split())`; every line but the last is full (the greedy rule of `GreedyLines`) |
| Captions.Wrap | speech_to_text.py:117-162 | definition of `wrap_text` as a function of the text: `Place` of its words, the open line flushed, and the `[text]` fallback; `WrapText` is proved equal to it, and so carries its fit, round-trip and greedy properties |
| Captions.EarlyBreakIsNotGreedy | speech_to_text.py:131-136 | with the character count as the width and a limit of 3, the line "a" before "b" is not full for "a b": the greedy rule rules out breaking it early |
| Captions.EarlyBreakBeforeSharedPrefix | speech_to_text.py:131-136 | with the character count and a limit of 4, for the words "x", "ab", "abzzzz" the line "x" is not full, although a later word starts like the next line: the rule names the exact next word |
| Captions.UntestedLineExcluded | speech_to_text.py:127-132 | for a width under which only "a b" is too wide, the line "a b c" fits but not all its test lines do, so the loop cannot produce it |
| Captions.UntestedPieceExcluded | speech_to_text.py:143-149 | for a width under which only "ab" is too wide, the piece "abc" fits but its test piece "ab" does not, so the character loop cannot produce it |
| Captions.Strip | speech_to_text.py:98 | `str.strip()` is empty exactly for an all-white-space text; otherwise it neither starts nor ends with white space; it is a slice of the text with only white space before and after it; and it keeps every non-space character |
| Captions.Leading | speech_to_text.py:98 | the leading run of white space is in range and ends at a non-space character or the end |
| Captions.Trailing | speech_to_text.py:98 | the trailing run of white space is in range and starts after a non-space character or at the start |
| Captions.StripParts | speech_to_text.py:98 | cutting both runs off a text that is not all white space leaves a non-empty slice with non-space ends that keeps every non-space character |
| Captions.Caption.constructor | speech_to_text.py:33-34 | the caption starts as "Listening..." at the start time |
| Captions.Caption.Publish | speech_to_text.py:98-111 | a stripped result that is not empty becomes the caption and restarts its clock; an empty one changes nothing; the caption is never empty |
| Captions.Caption.Current | speech_to_text.py:251-259 | the video loop draws nothing exactly when more than CAPTION_TIMEOUT seconds have passed since the last update, and draws the caption otherwise |

The gates that `Asl.StepCases` states:
- the live confidence is the largest probability;
- below IDLE_THRESH, "Idle" is shown and the state is `Reset`;
- otherwise the argmax enters the window;
- while the window is short, nothing commits and the argmax label is shown;
- once the window is full, the majority label is shown;
- below COMMIT_THRESH, nothing changes beyond the window;
- a new majority restarts the hold at `now` and does not commit;
- a majority already held, but for less than HOLD_TIME or blocked by the repeat rule, is shown with the confidence and nothing commits;
- a commit records the word and time exactly when `Commits` holds;
- otherwise the commit memory is kept.

For `Asl.FrameStep`, one pass of the webcam loop:
- the presence history keeps the last SEQUENCE_LENGTH verdicts;
- a present frame cancels the idle timer, and only the first absent frame starts it;
- an absent frame empties the keypoint window and the vote, and shows "(no hands visible)";
- an absence of at least CLEAR_IDLE_SECONDS also clears the sentence and the commit memory, and a shorter one keeps both;
- a present frame pushes its keypoints;
- without enough hands or a full window, the state is untouched and "Reading..." is shown;
- otherwise the frame is one `Step`;
- a committed word is appended to the sentence, which keeps its last five words.

## Left out

- The classifier, MediaPipe keypoint extraction and the hand detector are not modelled. Their results are parameters of each frame: the probability vector, the keypoints and the presence verdict.
- `FrameStep` and `Tick` take the probability vector on every frame. The source computes it only when the gate opens. The model reads it only then, so a value passed on other frames has no effect.
- `asl.py` (lines 160 and 215) and `ml/test.py` (lines 110 and 145) each read the clock twice per frame: once in `update_prediction` for the hold and commit timing, and once in the loop for the idle timer (and, in `ml/test.py`, the countdown). The model uses one reading, `now`, for both.
- Drawing, flipping, the virtual camera, window handling and key polling are I/O, so they are not modelled.
- Text-to-speech (`speak_text`) runs on a thread of its own and only consumes the committed words, so it is not modelled.
- The Vosk recognizer, the audio queue, the threads and `caption_lock` are not modelled. `Publish` is one update made under the lock, and `Current` is one read made under it. The JSON parsing of results is not modelled either: the text to publish is a parameter.
- Floating point is modelled as exact reals, so rounding in the thresholds and in `sum/len` is not captured.
- `Step`, `FrameStep` and the members built on them require `|probs| == |actions|`. The code does not check the length. A shorter vector runs, and a longer one crashes only when the argmax or the majority falls outside `actions`. The model does not capture these other lengths.
- AslRuns.StepCommit: requires non-empty labels. A label that is the empty string would be committed without being reported, because `if committed:` skips it.
- AslRuns.StepRepeat, AslRuns.RunRemembersLastCommit and AslRuns.RepeatDelay: require non-empty labels, for the same reason.
- MlRuns.StepCommit: requires non-empty labels, for the same reason.
- MlRuns.RememberedWord, MlRuns.LastCommitIsNew, MlRuns.CommitsAreNew, MlRuns.NoRepeatWithoutClear and MlRuns.FirstCommitIsNew: require non-empty labels, for the same reason.
- `pred_hist.append` followed by `pop(0)` is modelled as one assignment of the last WINDOW entries. This is the same list, not the same two in-place steps.
- In `wrap_text`, the branch `current_line = []` after the character loop and the fallback `[text]` are kept in `NextLine`, `Wrap` and the methods. Neither can be reached: a non-empty word always leaves a piece, and a text with words always yields a line.
- The word loop of `wrap_text` is the method `PlaceWords`, and its character loop is the method `BreakWord`, each called where the loop stands. The loops are the same.
- `launcher.py`, `main.py`, `virtual_cam.py`, `ml/create_division.py` and the web site are not part of this model.
