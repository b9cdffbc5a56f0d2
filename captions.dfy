/** The caption side of `speech_to_text.py`: the greedy word wrap that fits a
    transcript into the frame width, falling back to breaking a word into
    characters, and the rule that hides a caption once it is older than
    CAPTION_TIMEOUT. Text measurement is the parameter `width`. */
module Captions {

  /** Python's `str.isspace` for one character: the Unicode white space
      that `str.split()` splits on. */
  predicate IsSpace(c: char)
  {
    || ('\t' <= c <= '\r')
    || ('\U{001C}' <= c <= '\U{001F}')
    || c == ' ' || c == '\U{0085}' || c == '\U{00A0}' || c == '\U{1680}'
    || ('\U{2000}' <= c <= '\U{200A}')
    || c == '\U{2028}' || c == '\U{2029}' || c == '\U{202F}' || c == '\U{205F}' || c == '\U{3000}'
  }

  predicate NoSpace(s: string)
  {
    forall k :: 0 <= k < |s| ==> !IsSpace(s[k])
  }

  predicate AllSpace(s: string)
  {
    forall k :: 0 <= k < |s| ==> IsSpace(s[k])
  }

  /** The length of the run of non-space characters that starts `s`. */
  function WordLength(s: string): (n: nat)
    ensures n <= |s|
    ensures NoSpace(s[..n])
    ensures n == |s| || IsSpace(s[n])
  {
    if s == [] || IsSpace(s[0]) then 0 else 1 + WordLength(s[1..])
  }

  /** `text.split()`: the maximal runs of non-space characters, in order. */
  function Split(s: string): (words: seq<string>)
    ensures forall k :: 0 <= k < |words| ==> words[k] != "" && NoSpace(words[k])
    ensures words == [] <==> AllSpace(s)
    decreases |s|
  {
    if s == [] then []
    else if IsSpace(s[0]) then
      var rest := Split(s[1..]);
      assert AllSpace(s[1..]) ==> AllSpace(s) by {
        assert forall k :: 0 < k < |s| ==> s[k] == s[1..][k - 1];
      }
      rest
    else
      var n := WordLength(s);
      [s[..n]] + Split(s[n..])
  }

  /** The characters of `s` other than white space, in order. */
  function Printable(s: string): string
  {
    if s == [] then ""
    else Printable(s[..|s| - 1]) + (if IsSpace(s[|s| - 1]) then "" else [s[|s| - 1]])
  }

  /** `''.join(xs)`. */
  function Concat(xs: seq<string>): string
  {
    if xs == [] then "" else Concat(xs[..|xs| - 1]) + xs[|xs| - 1]
  }

  /** `' '.join(xs)`. */
  function Join(xs: seq<string>): string
  {
    if xs == [] then ""
    else if |xs| == 1 then xs[0]
    else Join(xs[..|xs| - 1]) + " " + xs[|xs| - 1]
  }

  /** A join starts with its first element, and joins of two or more
      elements put a space right after it. */
  lemma {:induction false} JoinStartsWith(xs: seq<string>)
    requires xs != []
    ensures xs[0] <= Join(xs)
    ensures |xs| > 1 ==> xs[0] + " " <= Join(xs)
  {
    if |xs| > 1 {
      var init := xs[..|xs| - 1];
      JoinStartsWith(init);
      var j := Join(init) + " " + xs[|xs| - 1];
      if |init| > 1 {
        assert (xs[0] + " ") <= Join(init);
        assert j[..|xs[0]| + 1] == Join(init)[..|xs[0]| + 1];
      } else {
        assert Join(init) == xs[0];
        assert j[..|xs[0]| + 1] == xs[0] + " ";
      }
    }
  }

  lemma ConcatSnoc(xs: seq<string>, x: string)
    ensures Concat(xs + [x]) == Concat(xs) + x
  {
    assert (xs + [x])[..|xs|] == xs;
  }

  lemma {:induction false} ConcatCons(x: string, xs: seq<string>)
    ensures Concat([x] + xs) == x + Concat(xs)
    decreases |xs|
  {
    if xs == [] {
      assert [x] + xs == [] + [x];
      ConcatSnoc([], x);
    } else {
      var ys, init, last := [x] + xs, xs[..|xs| - 1], xs[|xs| - 1];
      ConcatCons(x, init);
      assert ys[..|ys| - 1] == [x] + init && ys[|ys| - 1] == last;
      assert Concat(ys) == (x + Concat(init)) + last;
      assert Concat(xs) == Concat(init) + last;
    }
  }

  lemma {:induction false} PrintableAppend(a: string, b: string)
    ensures Printable(a + b) == Printable(a) + Printable(b)
    decreases |b|
  {
    if b == [] {
      assert a + b == a;
    } else {
      var b' := b[..|b| - 1];
      assert (a + b)[..|a + b| - 1] == a + b';
      PrintableAppend(a, b');
    }
  }

  lemma {:induction false} PrintableOfNoSpace(s: string)
    requires NoSpace(s)
    ensures Printable(s) == s
  {
    if s != [] {
      var s' := s[..|s| - 1];
      assert NoSpace(s');
      PrintableOfNoSpace(s');
      assert s == s' + [s[|s| - 1]];
    }
  }

  /** Joining words by ' ' and taking the white space out again gives their
      concatenation. */
  lemma {:induction false} PrintableOfJoin(xs: seq<string>)
    requires forall k :: 0 <= k < |xs| ==> NoSpace(xs[k])
    ensures Printable(Join(xs)) == Concat(xs)
  {
    if |xs| == 1 {
      PrintableOfNoSpace(xs[0]);
      assert xs == [] + [xs[0]];
      ConcatSnoc([], xs[0]);
    } else if |xs| > 1 {
      var init, last := xs[..|xs| - 1], xs[|xs| - 1];
      assert forall k :: 0 <= k < |init| ==> init[k] == xs[k];
      PrintableOfJoin(init);
      PrintableSpaceWord(Join(init), last);
    }
  }

  /** Python's `str.split` loses only the white space: concatenating the
      words gives the text with its white space taken out. */
  lemma {:induction false} SplitKeepsPrintable(s: string)
    ensures Concat(Split(s)) == Printable(s)
    decreases |s|
  {
    if s != [] {
      if IsSpace(s[0]) {
        SplitKeepsPrintable(s[1..]);
        PrintableAppend([s[0]], s[1..]);
        assert [s[0]][..0] == "";
        assert s == [s[0]] + s[1..];
      } else {
        var n := WordLength(s);
        SplitKeepsPrintable(s[n..]);
        ConcatCons(s[..n], Split(s[n..]));
        PrintableAppend(s[..n], s[n..]);
        PrintableOfNoSpace(s[..n]);
        assert s == s[..n] + s[n..];
      }
    }
  }

  /** The text rebuilt from its words and the white space around them:
      `gaps[0] + words[0] + gaps[1] + ... + words[n - 1] + gaps[n]`. */
  function Interleave(gaps: seq<string>, words: seq<string>): string
    requires |gaps| == |words| + 1
    decreases |words|
  {
    if words == [] then gaps[0] else gaps[0] + words[0] + Interleave(gaps[1..], words[1..])
  }

  /** `words` are the maximal runs of `s`: `s` is the words with runs of
      white space between them, and only the runs at either end may be
      empty. */
  predicate Gapped(s: string, words: seq<string>, gaps: seq<string>)
  {
    && |gaps| == |words| + 1
    && (forall k :: 0 <= k < |gaps| ==> AllSpace(gaps[k]))
    && (forall k :: 0 < k < |words| ==> gaps[k] != "")
    && s == Interleave(gaps, words)
  }

  /** White space before the text goes into its first gap. */
  lemma InterleaveHead(x: string, gaps: seq<string>, words: seq<string>)
    requires |gaps| == |words| + 1
    ensures Interleave([x + gaps[0]] + gaps[1..], words) == x + Interleave(gaps, words)
  {
    var g := [x + gaps[0]] + gaps[1..];
    if words != [] {
      assert g[1..] == gaps[1..];
    }
  }

  /** A leading white-space character joins the first gap. */
  lemma GappedSpace(s: string, words: seq<string>, gaps: seq<string>)
    requires s != [] && IsSpace(s[0]) && Gapped(s[1..], words, gaps)
    ensures Gapped(s, words, [[s[0]] + gaps[0]] + gaps[1..])
  {
    var g := [[s[0]] + gaps[0]] + gaps[1..];
    InterleaveHead([s[0]], gaps, words);
    assert s == [s[0]] + s[1..];
    assert AllSpace(gaps[0]);
    assert forall k :: 0 < k < |g| ==> g[k] == gaps[k];
  }

  /** A text that starts with white space has a non-empty first gap. */
  lemma FirstGap(s: string, words: seq<string>, gaps: seq<string>)
    requires s != [] && IsSpace(s[0]) && words != [] && words[0] != "" && NoSpace(words[0])
    requires Gapped(s, words, gaps)
    ensures gaps[0] != ""
  {
    var x := Interleave(gaps[1..], words[1..]);
    assert s == gaps[0] + words[0] + x;
  }

  /** A leading word becomes the first word, after an empty first gap. */
  lemma GappedWord(s: string, n: nat, words: seq<string>, gaps: seq<string>)
    requires 0 < n <= |s| && NoSpace(s[..n]) && (n == |s| || IsSpace(s[n]))
    requires forall k :: 0 <= k < |words| ==> words[k] != "" && NoSpace(words[k])
    requires Gapped(s[n..], words, gaps)
    ensures Gapped(s, [s[..n]] + words, [""] + gaps)
  {
    var w, g, ws := s[..n], [""] + gaps, [s[..n]] + words;
    assert g[1..] == gaps && ws[1..] == words;
    assert s == w + s[n..];
    if words != [] {
      FirstGap(s[n..], words, gaps);
    }
    assert forall k :: 1 <= k < |g| ==> g[k] == gaps[k - 1];
  }

  /** Python's `str.split` splits at every run of white space and nowhere
      else: each of its words is a maximal run of non-space characters. */
  lemma {:induction false} SplitIsMaximal(s: string)
    ensures exists gaps :: Gapped(s, Split(s), gaps)
    decreases |s|
  {
    if s == [] {
      assert Gapped(s, Split(s), [""]);
    } else if IsSpace(s[0]) {
      SplitIsMaximal(s[1..]);
      var g :| Gapped(s[1..], Split(s[1..]), g);
      GappedSpace(s, Split(s[1..]), g);
      assert Split(s) == Split(s[1..]);
      assert Gapped(s, Split(s), [[s[0]] + g[0]] + g[1..]);
    } else {
      var n := WordLength(s);
      SplitIsMaximal(s[n..]);
      var g :| Gapped(s[n..], Split(s[n..]), g);
      GappedWord(s, n, Split(s[n..]), g);
      assert Split(s) == [s[..n]] + Split(s[n..]);
      assert Gapped(s, Split(s), [""] + g);
    }
  }

  /** Appending a word to the last group of a grouping appends it to the join. */
  lemma JoinExtendLast(groups: seq<string>, last: string, word: string)
    ensures Join(groups + [last + " " + word]) == Join(groups + [last]) + " " + word
  {
    var a := groups + [last + " " + word];
    var b := groups + [last];
    assert a[..|a| - 1] == groups && b[..|b| - 1] == groups;
  }

  lemma JoinSnoc(xs: seq<string>, x: string)
    requires xs != []
    ensures Join(xs + [x]) == Join(xs) + " " + x
  {
    assert (xs + [x])[..|xs|] == xs;
  }

  lemma AppendAssoc<T>(a: seq<T>, b: seq<T>, c: seq<T>)
    ensures (a + b) + c == a + (b + c)
  {
  }

  lemma SnocParts<T>(xs: seq<T>, x: T)
    ensures (xs + [x])[..|xs|] == xs && (xs + [x])[|xs|] == x
  {
  }

  lemma TakeLeft<T>(a: seq<T>, b: seq<T>, n: nat)
    requires n <= |a|
    ensures (a + b)[..n] == a[..n]
  {
  }

  lemma TakeAppend<T>(a: seq<T>, b: seq<T>, m: nat)
    requires m < |b|
    ensures (a + b)[..|a| + m + 1] == a + b[..m + 1]
  {
  }

  lemma NoSpacePrefix(s: string, n: nat)
    requires NoSpace(s) && n <= |s|
    ensures NoSpace(s[..n])
  {
    assert forall t :: 0 <= t < n ==> s[..n][t] == s[t];
  }

  lemma TakeOneMore<T>(xs: seq<T>, i: nat)
    requires i < |xs|
    ensures xs[..i + 1] == xs[..i] + [xs[i]]
  {
  }

  /** A line fits when its measured width is at most `maxWidth`; a single
      character is the one exception, as it cannot be broken further. */
  predicate Fits(width: string -> int, maxWidth: int, line: string)
  {
    width(line) <= maxWidth || |line| == 1
  }

  predicate GoodLines(width: string -> int, maxWidth: int, lines: seq<string>)
  {
    forall k :: 0 <= k < |lines| ==> lines[k] != "" && Fits(width, maxWidth, lines[k])
  }

  predicate WordsFit(width: string -> int, maxWidth: int, words: seq<string>)
  {
    forall k :: 0 <= k < |words| ==> width(words[k]) <= maxWidth
  }

  lemma {:induction false} ConcatAppend(xs: seq<string>, ys: seq<string>)
    ensures Concat(xs + ys) == Concat(xs) + Concat(ys)
    decreases |ys|
  {
    if ys == [] {
      assert xs + ys == xs;
    } else {
      var zs, init, last := xs + ys, ys[..|ys| - 1], ys[|ys| - 1];
      assert zs[..|zs| - 1] == xs + init && zs[|zs| - 1] == last;
      ConcatAppend(xs, init);
      assert Concat(zs) == (Concat(xs) + Concat(init)) + last;
      assert Concat(ys) == Concat(init) + last;
    }
  }

  /** The character loop of `wrap_text` as a function: the finished pieces
      and the open piece once the characters `chars` are placed. */
  datatype Pieces = Pieces(done: seq<string>, open: string)

  /** One turn of the character loop: the character joins the open piece,
      unless the piece is non-empty and would then be too wide, in which case
      the piece is finished and the character opens the next. */
  function CharStep(width: string -> int, maxWidth: int, p: Pieces, c: char): Pieces
  {
    if width(p.open + [c]) > maxWidth && p.open != "" then Pieces(p.done + [p.open], [c])
    else Pieces(p.done, p.open + [c])
  }

  function BreakChars(width: string -> int, maxWidth: int, chars: string): Pieces
  {
    if chars == [] then Pieces([], "")
    else CharStep(width, maxWidth, BreakChars(width, maxWidth, chars[..|chars| - 1]), chars[|chars| - 1])
  }

  /** Piece `m` of a broken word is full: the pieces up to it spell the first
      `j` characters of the word, and character `j` would make it too wide. */
  predicate PieceFull(width: string -> int, maxWidth: int, word: string, pieces: seq<string>, m: nat)
    requires m < |pieces|
  {
    var j := |Concat(pieces[..m + 1])|;
    0 < j < |word| && Concat(pieces[..m + 1]) == word[..j] && width(pieces[m] + [word[j]]) > maxWidth
  }

  predicate PiecesFull(width: string -> int, maxWidth: int, word: string, pieces: seq<string>)
  {
    forall m :: 0 <= m < |pieces| ==> PieceFull(width, maxWidth, word, pieces, m)
  }

  /** Every test the character loop made while growing the piece `p` passed:
      each prefix of two or more characters is at most `maxWidth` wide. */
  predicate PieceFits(width: string -> int, maxWidth: int, p: string)
  {
    forall t :: 1 < t <= |p| ==> width(p[..t]) <= maxWidth
  }

  predicate PiecesFit(width: string -> int, maxWidth: int, pieces: seq<string>)
  {
    forall m :: 0 <= m < |pieces| ==> PieceFits(width, maxWidth, pieces[m])
  }

  /** The invariant of the character loop after the first `k` characters of
      `word`: good finished pieces, each of them full, and an open piece that
      fits, which together spell those characters; every piece grew only
      while its tests passed. */
  predicate Breaking(width: string -> int, maxWidth: int, word: string, k: nat,
                     pieces: seq<string>, charLine: string)
    requires k <= |word|
  {
    && Pieces(pieces, charLine) == BreakChars(width, maxWidth, word[..k])
    && GoodLines(width, maxWidth, pieces)
    && (charLine == "" || Fits(width, maxWidth, charLine))
    && (k > 0 ==> charLine != "")
    && (pieces != [] ==> charLine != "")
    && Concat(pieces) + charLine == word[..k]
    && PiecesFull(width, maxWidth, word, pieces)
    && PiecesFit(width, maxWidth, pieces) && PieceFits(width, maxWidth, charLine)
  }

  /** The character loop of `wrap_text` for a word too wide on its own: the
      lines it emits and the last, still open piece. */
  method BreakWord(word: string, width: string -> int, maxWidth: int) returns (pieces: seq<string>, charLine: string)
    requires word != "" && NoSpace(word)
    ensures Pieces(pieces, charLine) == BreakChars(width, maxWidth, word)
    ensures GoodLines(width, maxWidth, pieces)
    ensures charLine != "" && Fits(width, maxWidth, charLine)
    ensures Concat(pieces) + charLine == word
    ensures NoSpace(Concat(pieces)) && NoSpace(charLine)
    ensures PiecesFull(width, maxWidth, word, pieces)
    ensures PiecesFit(width, maxWidth, pieces) && PieceFits(width, maxWidth, charLine)
  {
    pieces := [];
    charLine := "";
    for k := 0 to |word|
      invariant Breaking(width, maxWidth, word, k, pieces, charLine)
    {
      var testCharLine := charLine + [word[k]];
      if width(testCharLine) > maxWidth && charLine != "" {
        PieceClosed(width, maxWidth, word, k, pieces, charLine);
        pieces := pieces + [charLine];
        charLine := [word[k]];
      } else {
        PieceExtended(width, maxWidth, word, k, pieces, charLine);
        charLine := testCharLine;
      }
    }
    assert word[..|word|] == word;
    NoSpaceParts(Concat(pieces), charLine, word);
  }

  /** The next character does not fit on the open piece: the piece is
      finished, full, and the character opens the next. */
  lemma PieceClosed(width: string -> int, maxWidth: int, word: string, k: nat, pieces: seq<string>, charLine: string)
    requires k < |word| && Breaking(width, maxWidth, word, k, pieces, charLine)
    requires charLine != "" && width(charLine + [word[k]]) > maxWidth
    ensures Breaking(width, maxWidth, word, k + 1, pieces + [charLine], [word[k]])
  {
    var pieces' := pieces + [charLine];
    TakeOneMore(word, k);
    assert word[..k + 1][..k] == word[..k] && word[..k + 1][k] == word[k];
    ConcatSnoc(pieces, charLine);
    assert pieces'[..|pieces| + 1] == pieces';
    assert PieceFull(width, maxWidth, word, pieces', |pieces|);
    forall m | 0 <= m < |pieces|
      ensures PieceFull(width, maxWidth, word, pieces', m) && PieceFits(width, maxWidth, pieces'[m])
    {
      assert pieces'[..m + 1] == pieces[..m + 1] && pieces'[m] == pieces[m];
      assert PieceFull(width, maxWidth, word, pieces, m);
    }
  }

  /** The next character fits, or the open piece is still empty: it joins
      the open piece. */
  lemma PieceExtended(width: string -> int, maxWidth: int, word: string, k: nat, pieces: seq<string>, charLine: string)
    requires k < |word| && Breaking(width, maxWidth, word, k, pieces, charLine)
    requires !(width(charLine + [word[k]]) > maxWidth && charLine != "")
    ensures Breaking(width, maxWidth, word, k + 1, pieces, charLine + [word[k]])
  {
    var c := word[k];
    TakeOneMore(word, k);
    assert word[..k + 1][..k] == word[..k] && word[..k + 1][k] == c;
    assert Concat(pieces) + (charLine + [c]) == (Concat(pieces) + charLine) + [c];
    forall t | 1 < t <= |charLine| + 1
      ensures width((charLine + [c])[..t]) <= maxWidth
    {
      if t <= |charLine| {
        assert (charLine + [c])[..t] == charLine[..t];
      } else {
        assert (charLine + [c])[..t] == charLine + [c];
      }
    }
  }

  lemma NoSpaceParts(a: string, b: string, s: string)
    requires a + b == s && NoSpace(s)
    ensures NoSpace(a) && NoSpace(b)
  {
    assert forall k :: 0 <= k < |a| ==> a[k] == s[k];
    assert forall k :: 0 <= k < |b| ==> b[k] == s[|a| + k];
  }

  lemma {:induction false} NoSpaceConcat(xs: seq<string>)
    requires NoSpace(Concat(xs))
    ensures forall m :: 0 <= m < |xs| ==> NoSpace(xs[m])
  {
    if xs != [] {
      var init := xs[..|xs| - 1];
      NoSpaceParts(Concat(init), xs[|xs| - 1], Concat(xs));
      NoSpaceConcat(init);
      assert forall m :: 0 <= m < |init| ==> xs[m] == init[m];
    }
  }

  /** The lines `wrap_text` returns from its state: the finished lines, then
      the open line when there is one. */
  function Flushed(lines: seq<string>, current: seq<string>): seq<string>
  {
    if current == [] then lines else lines + [Join(current)]
  }

  /** The state of the word loop of `wrap_text`: the finished lines and the
      words of the open line. */
  datatype Layout = Layout(lines: seq<string>, current: seq<string>)

  /** One turn of the word loop: the word joins the open line when the line
      still fits with it, and opens the next line otherwise. */
  function WordStep(width: string -> int, maxWidth: int, s: Layout, word: string): Layout
  {
    if width(Join(s.current + [word])) <= maxWidth then Layout(s.lines, s.current + [word])
    else NextLine(width, maxWidth, s, word)
  }

  /** The open line is finished, and the word opens the next one; a word too
      wide on its own is broken by the character loop, whose last piece opens
      the next line. */
  function NextLine(width: string -> int, maxWidth: int, s: Layout, word: string): Layout
  {
    var closed := Flushed(s.lines, s.current);
    if width(word) > maxWidth then
      var p := BreakChars(width, maxWidth, word);
      Layout(closed + p.done, if p.open != "" then [p.open] else [])
    else Layout(closed, [word])
  }

  function Place(width: string -> int, maxWidth: int, words: seq<string>): Layout
  {
    if words == [] then Layout([], [])
    else WordStep(width, maxWidth, Place(width, maxWidth, words[..|words| - 1]), words[|words| - 1])
  }

  /** `wrap_text` as a function of the text. */
  function Wrap(width: string -> int, maxWidth: int, text: string): seq<string>
  {
    var words := Split(text);
    if words == [] then []
    else
      var s := Place(width, maxWidth, words);
      var out := Flushed(s.lines, s.current);
      if out == [] then [text] else out
  }

  /** Every test line `wrap_text` built on the way to `line` fitted: the
      line up to each of its spaces is a join of the words before it. */
  predicate JoinsFit(width: string -> int, maxWidth: int, line: string)
  {
    forall i :: 0 <= i < |line| && line[i] == ' ' ==> Fits(width, maxWidth, line[..i])
  }

  predicate LinesJoinFit(width: string -> int, maxWidth: int, lines: seq<string>)
  {
    forall k :: 0 <= k < |lines| ==> JoinsFit(width, maxWidth, lines[k])
  }

  lemma JoinsFitNoSpace(width: string -> int, maxWidth: int, line: string)
    requires NoSpace(line)
    ensures JoinsFit(width, maxWidth, line)
  {
    assert IsSpace(' ');
  }

  /** A word added after a space to a line that fits keeps every test line
      fitting: the new test line is the old line. */
  lemma JoinsFitExtend(width: string -> int, maxWidth: int, line: string, word: string)
    requires JoinsFit(width, maxWidth, line) && Fits(width, maxWidth, line) && NoSpace(word)
    ensures JoinsFit(width, maxWidth, line + " " + word)
  {
    var l := line + " " + word;
    forall i | 0 <= i < |l| && l[i] == ' '
      ensures Fits(width, maxWidth, l[..i])
    {
      if i < |line| {
        assert l[i] == line[i] && l[..i] == line[..i];
      } else if i == |line| {
        assert l[..i] == line;
      } else {
        assert false;
      }
    }
  }

  /** The invariant of the word loop of `wrap_text` after the words `done`:
      the finished lines and the open line `current` are good lines whose
      test lines all fitted, that hold the characters of `done`, and join
      back to `done` when every word of it fits on a line by itself. */
  predicate Wrapping(width: string -> int, maxWidth: int, done: seq<string>, lines: seq<string>, current: seq<string>)
  {
    && GoodLines(width, maxWidth, lines)
    && LinesJoinFit(width, maxWidth, lines)
    && (forall k :: 0 <= k < |current| ==> current[k] != "" && NoSpace(current[k]))
    && (current != [] ==> Fits(width, maxWidth, Join(current)) && JoinsFit(width, maxWidth, Join(current)))
    && (current == [] <==> done == [])
    && (done == [] ==> lines == [])
    && Printable(Concat(Flushed(lines, current))) == Concat(done)
    && (WordsFit(width, maxWidth, done) ==> Join(Flushed(lines, current)) == Join(done))
  }

  lemma {:induction false} JoinNonEmpty(xs: seq<string>)
    requires xs != [] && xs[|xs| - 1] != ""
    ensures Join(xs) != ""
  {
  }

  lemma WordsFitPrefix(width: string -> int, maxWidth: int, done: seq<string>, word: string)
    requires WordsFit(width, maxWidth, done + [word])
    ensures WordsFit(width, maxWidth, done) && width(word) <= maxWidth
  {
    assert forall k :: 0 <= k < |done| ==> done[k] == (done + [word])[k];
    assert word == (done + [word])[|done|];
  }

  lemma ConcatExtendLast(lines: seq<string>, last: string, word: string)
    ensures Concat(lines + [last + " " + word]) == Concat(lines + [last]) + " " + word
  {
    ConcatSnoc(lines, last + " " + word);
    ConcatSnoc(lines, last);
  }

  lemma PrintableWord(p: string, word: string)
    requires NoSpace(word)
    ensures Printable(p + word) == Printable(p) + word
  {
    PrintableAppend(p, word);
    PrintableOfNoSpace(word);
  }

  lemma PrintableSpace()
    ensures Printable(" ") == ""
  {
    assert " "[..0] == "";
  }

  lemma PrintableSpaceWord(p: string, word: string)
    requires NoSpace(word)
    ensures Printable(p + " " + word) == Printable(p) + word
  {
    var q := p + " ";
    PrintableAppend(p, " ");
    PrintableSpace();
    assert Printable(q) == Printable(p);
    PrintableWord(q, word);
  }

  lemma FirstWord(word: string)
    requires NoSpace(word)
    ensures Printable(Concat(Flushed([], [word]))) == Concat([word])
    ensures Join(Flushed([], [word])) == Join([word])
  {
    assert Flushed([], [word]) == [word];
    assert [] + [word] == [word];
    ConcatSnoc([], word);
    assert "" + word == word;
    PrintableOfNoSpace(word);
  }

  /** The word fits on the open line. */
  lemma Appended(width: string -> int, maxWidth: int, done: seq<string>, lines: seq<string>, current: seq<string>, word: string)
    requires Wrapping(width, maxWidth, done, lines, current)
    requires word != "" && NoSpace(word) && width(Join(current + [word])) <= maxWidth
    ensures Wrapping(width, maxWidth, done + [word], lines, current + [word])
  {
    if current == [] {
      assert done == [] && lines == [];
      assert done + [word] == [word] && current + [word] == [word];
      FirstWord(word);
      JoinsFitNoSpace(width, maxWidth, word);
    } else {
      var open := Join(current);
      JoinSnoc(current, word);
      JoinsFitExtend(width, maxWidth, open, word);
      assert Flushed(lines, current) == lines + [open];
      assert Flushed(lines, current + [word]) == lines + [open + " " + word];
      assert Printable(Concat(lines + [open + " " + word])) == Concat(done + [word]) by {
        ConcatExtendLast(lines, open, word);
        PrintableSpaceWord(Concat(lines + [open]), word);
        ConcatSnoc(done, word);
      }
      assert WordsFit(width, maxWidth, done + [word]) ==>
               Join(lines + [open + " " + word]) == Join(done + [word]) by {
        if WordsFit(width, maxWidth, done + [word]) {
          WordsFitPrefix(width, maxWidth, done, word);
          JoinSnoc(done, word);
          JoinExtendLast(lines, open, word);
        }
      }
    }
  }

  /** The state once the open line is finished: good lines whose test lines
      fitted, that hold the characters of `done` and join back to it when all
      of its words fit. */
  predicate Closed(width: string -> int, maxWidth: int, done: seq<string>, lines: seq<string>)
  {
    && GoodLines(width, maxWidth, lines)
    && LinesJoinFit(width, maxWidth, lines)
    && (lines == [] <==> done == [])
    && Printable(Concat(lines)) == Concat(done)
    && (WordsFit(width, maxWidth, done) ==> Join(lines) == Join(done))
  }

  /** Finishing the open line. */
  lemma Flush(width: string -> int, maxWidth: int, done: seq<string>, lines: seq<string>, current: seq<string>)
    requires Wrapping(width, maxWidth, done, lines, current)
    ensures Closed(width, maxWidth, done, Flushed(lines, current))
  {
    if current != [] {
      JoinNonEmpty(current);
    }
  }

  /** The word does not fit on the open line but fits on a line of its own:
      after the open line is finished, the word opens the next. */
  lemma Restarted(width: string -> int, maxWidth: int, done: seq<string>, lines: seq<string>, word: string)
    requires Closed(width, maxWidth, done, lines)
    requires word != "" && NoSpace(word) && width(word) <= maxWidth
    ensures Wrapping(width, maxWidth, done + [word], lines, [word])
  {
    assert Join([word]) == word;
    JoinsFitNoSpace(width, maxWidth, word);
    assert Flushed(lines, [word]) == lines + [word];
    assert Printable(Concat(lines + [word])) == Concat(done + [word]) by {
      ConcatSnoc(done, word);
      ConcatSnoc(lines, word);
      PrintableWord(Concat(lines), word);
    }
    assert WordsFit(width, maxWidth, done + [word]) ==> Join(lines + [word]) == Join(done + [word]) by {
      if WordsFit(width, maxWidth, done + [word]) {
        WordsFitPrefix(width, maxWidth, done, word);
        if done == [] {
          assert done + [word] == [word] && lines + [word] == [word];
        } else {
          JoinSnoc(done, word);
          JoinSnoc(lines, word);
        }
      }
    }
  }

  lemma GoodLinesAppend(width: string -> int, maxWidth: int, xs: seq<string>, ys: seq<string>)
    requires GoodLines(width, maxWidth, xs) && GoodLines(width, maxWidth, ys)
    requires LinesJoinFit(width, maxWidth, xs) && LinesJoinFit(width, maxWidth, ys)
    ensures GoodLines(width, maxWidth, xs + ys) && LinesJoinFit(width, maxWidth, xs + ys)
  {
  }

  lemma PrintablePieces(lines: seq<string>, pieces: seq<string>, charLine: string)
    requires NoSpace(Concat(pieces)) && NoSpace(charLine)
    ensures Printable(Concat(lines + pieces + [charLine])) == Printable(Concat(lines)) + (Concat(pieces) + charLine)
  {
    var tail := Concat(pieces) + charLine;
    ConcatAppend(lines, pieces);
    ConcatSnoc(lines + pieces, charLine);
    assert Concat(lines + pieces + [charLine]) == Concat(lines) + tail;
    assert NoSpace(tail);
    PrintableWord(Concat(lines), tail);
  }

  /** The word is too wide for a line of its own: after the open line is
      finished come the character loop's lines, and its last piece opens the
      next line. */
  lemma Broken(width: string -> int, maxWidth: int, done: seq<string>, lines: seq<string>,
               word: string, pieces: seq<string>, charLine: string)
    requires Closed(width, maxWidth, done, lines)
    requires word != "" && NoSpace(word) && width(word) > maxWidth
    requires GoodLines(width, maxWidth, pieces) && charLine != "" && Fits(width, maxWidth, charLine)
    requires Concat(pieces) + charLine == word && NoSpace(Concat(pieces)) && NoSpace(charLine)
    ensures Wrapping(width, maxWidth, done + [word], lines + pieces, [charLine])
  {
    assert GoodLines(width, maxWidth, lines + pieces) && LinesJoinFit(width, maxWidth, lines + pieces) by {
      NoSpaceConcat(pieces);
      forall m | 0 <= m < |pieces|
        ensures JoinsFit(width, maxWidth, pieces[m])
      {
        JoinsFitNoSpace(width, maxWidth, pieces[m]);
      }
      GoodLinesAppend(width, maxWidth, lines, pieces);
    }
    assert Join([charLine]) == charLine;
    JoinsFitNoSpace(width, maxWidth, charLine);
    assert Printable(Concat(Flushed(lines + pieces, [charLine]))) == Concat(done + [word]) by {
      assert Flushed(lines + pieces, [charLine]) == lines + pieces + [charLine];
      PrintablePieces(lines, pieces, charLine);
      ConcatSnoc(done, word);
    }
    assert !WordsFit(width, maxWidth, done + [word]) by {
      if WordsFit(width, maxWidth, done + [word]) {
        WordsFitPrefix(width, maxWidth, done, word);
      }
    }
  }

  /** Line `k` of `lines` ended before word `i` of `words`: the lines up to
      it hold exactly the words before `i`, and word `i` after a space would
      make it too wide. */
  predicate EndsBefore(width: string -> int, maxWidth: int, words: seq<string>, lines: seq<string>, k: nat, i: nat)
    requires k < |lines|
  {
    && i < |words|
    && Printable(Concat(lines[..k + 1])) == Concat(words[..i])
    && width(lines[k] + " " + words[i]) > maxWidth
  }

  /** Line `k` of `lines` ended inside word `i`, a word too wide for a line
      of its own: the lines up to it hold the words before `i` and the first
      `j` characters of word `i`, and character `j` would make it too wide. */
  predicate EndsInside(width: string -> int, maxWidth: int, words: seq<string>, lines: seq<string>,
                       k: nat, i: nat, j: nat)
    requires k < |lines|
  {
    && i < |words| && width(words[i]) > maxWidth && 0 < j < |words[i]|
    && Printable(Concat(lines[..k + 1])) == Concat(words[..i]) + words[i][..j]
    && width(lines[k] + [words[i][j]]) > maxWidth
  }

  /** The greedy rule for line `k`: it ended because the word after it, or
      the next character of the word broken across it, does not fit on it. */
  ghost predicate LineFull(width: string -> int, maxWidth: int, words: seq<string>, lines: seq<string>, k: nat)
    requires k < |lines|
  {
    || (exists i: nat :: EndsBefore(width, maxWidth, words, lines, k, i))
    || (exists i: nat, j: nat :: EndsInside(width, maxWidth, words, lines, k, i, j))
  }

  /** Why a finished line ended, as a position in the words: before word
      `i`, or before character `j` of word `i`. */
  datatype Break = WordBreak(i: nat) | CharBreak(i: nat, j: nat)

  predicate Ended(width: string -> int, maxWidth: int, done: seq<string>, lines: seq<string>, k: nat, b: Break)
    requires k < |lines|
  {
    match b
    case WordBreak(i) => EndsBefore(width, maxWidth, done, lines, k, i)
    case CharBreak(i, j) => EndsInside(width, maxWidth, done, lines, k, i, j)
  }

  /** The greedy half of the word loop's invariant: each finished line has
      its reason to end recorded in `breaks`. */
  predicate Greedy(width: string -> int, maxWidth: int, done: seq<string>, lines: seq<string>, breaks: seq<Break>)
  {
    && |breaks| == |lines|
    && forall k {:trigger Ended(width, maxWidth, done, lines, k, breaks[k])} ::
         0 <= k < |lines| ==> Ended(width, maxWidth, done, lines, k, breaks[k])
  }

  /** The reasons recorded when the open line is finished before word `i`. */
  function Opened(breaks: seq<Break>, current: seq<string>, i: nat): seq<Break>
  {
    if current == [] then breaks else breaks + [WordBreak(i)]
  }

  /** The reasons of the pieces of broken word `i`. */
  function CharBreaks(i: nat, pieces: seq<string>): seq<Break>
  {
    if pieces == [] then []
    else CharBreaks(i, pieces[..|pieces| - 1]) + [CharBreak(i, |Concat(pieces)|)]
  }

  lemma {:induction false} CharBreaksLength(i: nat, pieces: seq<string>)
    ensures |CharBreaks(i, pieces)| == |pieces|
  {
    if pieces != [] {
      CharBreaksLength(i, pieces[..|pieces| - 1]);
    }
  }

  /** The reason of piece `m` is the position in the word right after it. */
  lemma {:induction false} CharBreakAt(i: nat, pieces: seq<string>, m: nat)
    requires m < |pieces|
    ensures |CharBreaks(i, pieces)| == |pieces| && CharBreaks(i, pieces)[m] == CharBreak(i, |Concat(pieces[..m + 1])|)
  {
    var init := pieces[..|pieces| - 1];
    CharBreaksLength(i, pieces);
    CharBreaksLength(i, init);
    if m == |pieces| - 1 {
      assert pieces[..m + 1] == pieces;
    } else {
      CharBreakAt(i, init, m);
      assert init[..m + 1] == pieces[..m + 1];
    }
  }

  /** A reason to end stays valid as more words are placed and more lines
      are finished after it. */
  lemma EndedExtend(width: string -> int, maxWidth: int, done: seq<string>, more: seq<string>,
                    lines: seq<string>, extra: seq<string>, k: nat, b: Break)
    requires k < |lines| && Ended(width, maxWidth, done, lines, k, b)
    ensures Ended(width, maxWidth, done + more, lines + extra, k, b)
  {
    TakeLeft(lines, extra, k + 1);
    assert (lines + extra)[k] == lines[k];
    match b
    case WordBreak(i) =>
      TakeLeft(done, more, i);
    case CharBreak(i, j) =>
      TakeLeft(done, more, i);
  }

  /** The word fits on the open line: no finished line changes. */
  lemma GreedyAppended(width: string -> int, maxWidth: int, done: seq<string>, lines: seq<string>,
                       breaks: seq<Break>, word: string)
    requires Greedy(width, maxWidth, done, lines, breaks)
    ensures Greedy(width, maxWidth, done + [word], lines, breaks)
  {
    assert lines + [] == lines;
    forall k | 0 <= k < |lines|
      ensures Ended(width, maxWidth, done + [word], lines, k, breaks[k])
    {
      EndedExtend(width, maxWidth, done, [word], lines, [], k, breaks[k]);
    }
  }

  /** A line that holds, after the lines `closed`, the first `j` characters
      of the next word, and that the word's character `j` would make too
      wide, ends inside that word. */
  lemma EndsInsideWord(width: string -> int, maxWidth: int, done: seq<string>, closed: seq<string>,
                       word: string, lines: seq<string>, k: nat, head: string, j: nat)
    requires Printable(Concat(closed)) == Concat(done)
    requires NoSpace(word) && width(word) > maxWidth
    requires k < |lines| && Concat(lines[..k + 1]) == Concat(closed) + head
    requires 0 < j < |word| && head == word[..j] && width(lines[k] + [word[j]]) > maxWidth
    ensures EndsInside(width, maxWidth, done + [word], lines, k, |done|, j)
  {
    NoSpacePrefix(word, j);
    PrintableWord(Concat(closed), head);
    SnocParts(done, word);
  }

  lemma PieceSpells(width: string -> int, maxWidth: int, word: string, pieces: seq<string>, m: nat)
    requires m < |pieces| && PiecesFull(width, maxWidth, word, pieces)
    ensures var j := |Concat(pieces[..m + 1])|;
      0 < j < |word| && Concat(pieces[..m + 1]) == word[..j] && width(pieces[m] + [word[j]]) > maxWidth
  {
    assert PieceFull(width, maxWidth, word, pieces, m);
  }

  lemma PrefixLines(closed: seq<string>, pieces: seq<string>, m: nat)
    requires m < |pieces|
    ensures Concat((closed + pieces)[..|closed| + m + 1]) == Concat(closed) + Concat(pieces[..m + 1])
    ensures (closed + pieces)[|closed| + m] == pieces[m]
  {
    TakeAppend(closed, pieces, m);
    ConcatAppend(closed, pieces[..m + 1]);
  }

  /** Piece `m` of word `word`, broken after the lines `closed`, ends inside
      the word. */
  lemma PieceEnded(width: string -> int, maxWidth: int, done: seq<string>, closed: seq<string>,
                   word: string, pieces: seq<string>, m: nat)
    requires Printable(Concat(closed)) == Concat(done)
    requires NoSpace(word) && width(word) > maxWidth
    requires m < |pieces| && PiecesFull(width, maxWidth, word, pieces)
    ensures Ended(width, maxWidth, done + [word], closed + pieces, |closed| + m,
                  CharBreak(|done|, |Concat(pieces[..m + 1])|))
  {
    var pre := pieces[..m + 1];
    var lines', k := closed + pieces, |closed| + m;
    PieceSpells(width, maxWidth, word, pieces, m);
    PrefixLines(closed, pieces, m);
    EndsInsideWord(width, maxWidth, done, closed, word, lines', k, Concat(pre), |Concat(pre)|);
  }

  /** The open line, finished because the next word does not fit on it,
      ends before that word. */
  lemma OpenLineEnded(width: string -> int, maxWidth: int, done: seq<string>, lines: seq<string>,
                      open: string, word: string, pieces: seq<string>, breaks: seq<Break>)
    requires Printable(Concat(lines + [open])) == Concat(done)
    requires width(open + " " + word) > maxWidth
    requires |breaks| == |lines| + 1 + |pieces| && breaks[|lines|] == WordBreak(|done|)
    ensures EndedIn(width, maxWidth, done + [word], lines + [open] + pieces, breaks, |lines|, |lines| + 1)
  {
    var lines' := lines + [open] + pieces;
    TakeLeft(lines + [open], pieces, |lines| + 1);
    assert (lines + [open])[..|lines| + 1] == lines + [open];
    SnocParts(lines, open);
    SnocParts(done, word);
    assert EndsBefore(width, maxWidth, done + [word], lines', |lines|, |done|);
  }

  lemma GreedyOfEndedIn(width: string -> int, maxWidth: int, done: seq<string>, lines: seq<string>,
                        breaks: seq<Break>)
    requires EndedIn(width, maxWidth, done, lines, breaks, 0, |lines|)
    ensures Greedy(width, maxWidth, done, lines, breaks)
  {
  }

  /** Lines `lo` to `hi` have their reasons to end recorded in `breaks`. */
  predicate EndedIn(width: string -> int, maxWidth: int, done: seq<string>, lines: seq<string>,
                    breaks: seq<Break>, lo: nat, hi: nat)
  {
    && |breaks| == |lines| && hi <= |lines|
    && forall k {:trigger Ended(width, maxWidth, done, lines, k, breaks[k])} ::
         lo <= k < hi ==> Ended(width, maxWidth, done, lines, k, breaks[k])
  }

  lemma EndedInJoin(width: string -> int, maxWidth: int, done: seq<string>, lines: seq<string>,
                    breaks: seq<Break>, lo: nat, mid: nat, hi: nat)
    requires EndedIn(width, maxWidth, done, lines, breaks, lo, mid)
    requires EndedIn(width, maxWidth, done, lines, breaks, mid, hi)
    ensures EndedIn(width, maxWidth, done, lines, breaks, lo, hi)
  {
  }

  /** The finished lines keep their reasons to end. */
  lemma OldLinesEnded(width: string -> int, maxWidth: int, done: seq<string>, more: seq<string>,
                      lines: seq<string>, rest: seq<string>, breaks: seq<Break>, tail: seq<Break>)
    requires Greedy(width, maxWidth, done, lines, breaks) && |tail| == |rest|
    ensures EndedIn(width, maxWidth, done + more, lines + rest, breaks + tail, 0, |lines|)
  {
    forall k | 0 <= k < |lines|
      ensures Ended(width, maxWidth, done + more, lines + rest, k, (breaks + tail)[k])
    {
      assert (breaks + tail)[k] == breaks[k];
      EndedExtend(width, maxWidth, done, more, lines, rest, k, breaks[k]);
    }
  }

  /** Piece `m`, after the lines `closed`, ends inside word `i`. */
  predicate PieceEndedAt(width: string -> int, maxWidth: int, done: seq<string>, closed: seq<string>,
                         pieces: seq<string>, i: nat, m: nat)
    requires m < |pieces|
  {
    Ended(width, maxWidth, done, closed + pieces, |closed| + m, CharBreak(i, |Concat(pieces[..m + 1])|))
  }

  /** The pieces of a broken word end inside it. */
  lemma PiecesEndInside(width: string -> int, maxWidth: int, done: seq<string>, closed: seq<string>,
                        word: string, pieces: seq<string>)
    requires Printable(Concat(closed)) == Concat(done)
    requires NoSpace(word) && (pieces != [] ==> width(word) > maxWidth)
    requires PiecesFull(width, maxWidth, word, pieces)
    ensures forall m :: 0 <= m < |pieces| ==> PieceEndedAt(width, maxWidth, done + [word], closed, pieces, |done|, m)
  {
    forall m | 0 <= m < |pieces|
      ensures PieceEndedAt(width, maxWidth, done + [word], closed, pieces, |done|, m)
    {
      PieceEnded(width, maxWidth, done, closed, word, pieces, m);
    }
  }

  /** The reasons of the pieces, recorded after the reasons `head` of the
      lines before them. */
  lemma PiecesEnded(width: string -> int, maxWidth: int, done: seq<string>, closed: seq<string>,
                    pieces: seq<string>, head: seq<Break>, i: nat)
    requires |head| == |closed|
    requires forall m :: 0 <= m < |pieces| ==> PieceEndedAt(width, maxWidth, done, closed, pieces, i, m)
    ensures EndedIn(width, maxWidth, done, closed + pieces, head + CharBreaks(i, pieces), |closed|, |closed| + |pieces|)
  {
    var lines', breaks' := closed + pieces, head + CharBreaks(i, pieces);
    CharBreaksLength(i, pieces);
    forall k | |closed| <= k < |lines'|
      ensures Ended(width, maxWidth, done, lines', k, breaks'[k])
    {
      var m := k - |closed|;
      CharBreakAt(i, pieces, m);
      assert breaks'[k] == CharBreak(i, |Concat(pieces[..m + 1])|);
      assert PieceEndedAt(width, maxWidth, done, closed, pieces, i, m);
    }
  }

  /** The word does not fit on the open line: the open line is finished
      because of the word, the word's pieces are finished because of their
      next characters, and its last piece opens the next line. A word that
      fits on a line of its own is the case with no pieces. */
  lemma GreedyNewLine(width: string -> int, maxWidth: int, done: seq<string>, lines: seq<string>,
                      current: seq<string>, breaks: seq<Break>, word: string,
                      pieces: seq<string>, charLine: string)
    requires Greedy(width, maxWidth, done, lines, breaks)
    requires Printable(Concat(Flushed(lines, current))) == Concat(done)
    requires current != [] ==> width(Join(current) + " " + word) > maxWidth
    requires NoSpace(word) && Concat(pieces) + charLine == word
    requires pieces != [] ==> width(word) > maxWidth
    requires PiecesFull(width, maxWidth, word, pieces)
    ensures Greedy(width, maxWidth, done + [word], Flushed(lines, current) + pieces,
                   Opened(breaks, current, |done|) + CharBreaks(|done|, pieces))
  {
    var closed := Flushed(lines, current);
    var done', lines' := done + [word], closed + pieces;
    var first := Opened(breaks, current, |done|);
    var breaks' := first + CharBreaks(|done|, pieces);
    CharBreaksLength(|done|, pieces);
    PiecesEndInside(width, maxWidth, done, closed, word, pieces);
    PiecesEnded(width, maxWidth, done', closed, pieces, first, |done|);
    if current == [] {
      OldLinesEnded(width, maxWidth, done, [word], lines, pieces, breaks, CharBreaks(|done|, pieces));
    } else {
      var open := Join(current);
      var rest, more := [open] + pieces, [WordBreak(|done|)] + CharBreaks(|done|, pieces);
      AppendAssoc(lines, [open], pieces);
      AppendAssoc(breaks, [WordBreak(|done|)], CharBreaks(|done|, pieces));
      OldLinesEnded(width, maxWidth, done, [word], lines, rest, breaks, more);
      OpenLineEnded(width, maxWidth, done, lines, open, word, pieces, breaks');
      EndedInJoin(width, maxWidth, done', lines', breaks', 0, |lines|, |closed|);
    }
    EndedInJoin(width, maxWidth, done', lines', breaks', 0, |closed|, |lines'|);
    GreedyOfEndedIn(width, maxWidth, done', lines', breaks');
  }

  /** The greedy rule for the lines `wrap_text` returns: every line but the
      last ended because the next word, or the next character of a broken
      word, does not fit on it. */
  lemma GreedyLines(width: string -> int, maxWidth: int, words: seq<string>, lines: seq<string>,
                    current: seq<string>, breaks: seq<Break>)
    requires Greedy(width, maxWidth, words, lines, breaks) && current != []
    ensures var out := Flushed(lines, current);
      forall k :: 0 <= k < |out| - 1 ==> LineFull(width, maxWidth, words, out, k)
  {
    var out := Flushed(lines, current);
    assert out == lines + [Join(current)] && words + [] == words;
    forall k | 0 <= k < |out| - 1
      ensures LineFull(width, maxWidth, words, out, k)
    {
      EndedExtend(width, maxWidth, words, [], lines, [Join(current)], k, breaks[k]);
      match breaks[k]
      case WordBreak(i) =>
        assert EndsBefore(width, maxWidth, words, out, k, i);
      case CharBreak(i, j) =>
        assert EndsInside(width, maxWidth, words, out, k, i, j);
    }
  }

  /** The word does not fit on the open line of `wrap_text`: the open line
      is finished, and the word either opens the next line or, too wide on
      its own, is broken into characters whose last piece opens it. */
  method NewLine(width: string -> int, maxWidth: int, ghost done: seq<string>, lines: seq<string>,
                 current: seq<string>, ghost breaks: seq<Break>, word: string)
    returns (lines': seq<string>, current': seq<string>, ghost breaks': seq<Break>)
    requires Wrapping(width, maxWidth, done, lines, current)
    requires Greedy(width, maxWidth, done, lines, breaks)
    requires word != "" && NoSpace(word) && width(Join(current + [word])) > maxWidth
    ensures Layout(lines', current') == NextLine(width, maxWidth, Layout(lines, current), word)
    ensures Wrapping(width, maxWidth, done + [word], lines', current')
    ensures Greedy(width, maxWidth, done + [word], lines', breaks')
  {
    if current != [] {
      JoinSnoc(current, word);
    }
    Flush(width, maxWidth, done, lines, current);
    lines' := lines;
    if current != [] {
      lines' := lines' + [Join(current)];
    }
    assert lines' == Flushed(lines, current);
    if width(word) > maxWidth {
      var pieces, charLine := BreakWord(word, width, maxWidth);
      Broken(width, maxWidth, done, lines', word, pieces, charLine);
      GreedyNewLine(width, maxWidth, done, lines, current, breaks, word, pieces, charLine);
      breaks' := Opened(breaks, current, |done|) + CharBreaks(|done|, pieces);
      lines' := lines' + pieces;
      if charLine != "" {
        current' := [charLine];
      } else {
        current' := [];
      }
    } else {
      Restarted(width, maxWidth, done, lines', word);
      assert Concat([]) + word == word;
      GreedyNewLine(width, maxWidth, done, lines, current, breaks, word, [], word);
      breaks' := Opened(breaks, current, |done|) + CharBreaks(|done|, []);
      assert lines' + [] == lines';
      current' := [word];
    }
  }

  /** One turn of the word loop of `wrap_text`: the word joins the open line
      when the line still fits with it, and starts a new line otherwise. */
  method AddWord(width: string -> int, maxWidth: int, ghost done: seq<string>, lines: seq<string>,
                 current: seq<string>, ghost breaks: seq<Break>, word: string)
    returns (lines': seq<string>, current': seq<string>, ghost breaks': seq<Break>)
    requires Wrapping(width, maxWidth, done, lines, current)
    requires Greedy(width, maxWidth, done, lines, breaks)
    requires word != "" && NoSpace(word)
    ensures Layout(lines', current') == WordStep(width, maxWidth, Layout(lines, current), word)
    ensures Wrapping(width, maxWidth, done + [word], lines', current')
    ensures Greedy(width, maxWidth, done + [word], lines', breaks')
  {
    var testLine := Join(current + [word]);
    if width(testLine) <= maxWidth {
      Appended(width, maxWidth, done, lines, current, word);
      GreedyAppended(width, maxWidth, done, lines, breaks, word);
      lines', current', breaks' := lines, current + [word], breaks;
    } else {
      lines', current', breaks' := NewLine(width, maxWidth, done, lines, current, breaks, word);
    }
  }

  /** The lines `wrap_text` returns once every word is placed. */
  lemma Wrapped(width: string -> int, maxWidth: int, text: string, lines: seq<string>,
                current: seq<string>, breaks: seq<Break>)
    requires Split(text) != [] && Concat(Split(text)) == Printable(text)
    requires Wrapping(width, maxWidth, Split(text), lines, current)
    requires Greedy(width, maxWidth, Split(text), lines, breaks)
    ensures var out := Flushed(lines, current);
      && out != [] && !AllSpace(text)
      && GoodLines(width, maxWidth, out)
      && LinesJoinFit(width, maxWidth, out)
      && Printable(Concat(out)) == Printable(text)
      && (WordsFit(width, maxWidth, Split(text)) ==> Join(out) == Join(Split(text)))
      && forall k :: 0 <= k < |out| - 1 ==> LineFull(width, maxWidth, Split(text), out, k)
  {
    Flush(width, maxWidth, Split(text), lines, current);
    GreedyLines(width, maxWidth, Split(text), lines, current, breaks);
  }

  /** The loop of `wrap_text` over the words: each word joins the current line
      or starts a new one. */
  method PlaceWords(width: string -> int, maxWidth: int, words: seq<string>)
      returns (lines: seq<string>, current: seq<string>, ghost breaks: seq<Break>)
    requires forall k :: 0 <= k < |words| ==> words[k] != "" && NoSpace(words[k])
    ensures Layout(lines, current) == Place(width, maxWidth, words)
    ensures Wrapping(width, maxWidth, words, lines, current)
    ensures Greedy(width, maxWidth, words, lines, breaks)
  {
    lines, current, breaks := [], [], [];
    for i := 0 to |words|
      invariant Layout(lines, current) == Place(width, maxWidth, words[..i])
      invariant Wrapping(width, maxWidth, words[..i], lines, current)
      invariant Greedy(width, maxWidth, words[..i], lines, breaks)
    {
      TakeOneMore(words, i);
      assert words[..i + 1][..i] == words[..i] && words[..i + 1][i] == words[i];
      lines, current, breaks := AddWord(width, maxWidth, words[..i], lines, current, breaks, words[i]);
    }
    assert words[..|words|] == words;
  }

  /** Text with no words wraps to no lines. */
  lemma NothingToWrap(text: string)
    requires Split(text) == [] && Concat(Split(text)) == Printable(text)
    ensures AllSpace(text) && Printable(Concat([])) == Printable(text)
  {
  }

  /** `wrap_text`: greedy word wrap of `text` into lines whose measured width
      is at most `maxWidth`, a word too wide on its own being broken into
      characters. `width` is the text measurement `cv2.getTextSize` makes for
      the caption's font, scale and thickness. */
  method WrapText(text: string, width: string -> int, maxWidth: int) returns (lines: seq<string>)
    ensures lines == Wrap(width, maxWidth, text)
    ensures lines == [] <==> AllSpace(text)
    ensures GoodLines(width, maxWidth, lines)
    ensures LinesJoinFit(width, maxWidth, lines)
    ensures Printable(Concat(lines)) == Printable(text)
    ensures WordsFit(width, maxWidth, Split(text)) ==> Join(lines) == Join(Split(text))
    ensures forall k :: 0 <= k < |lines| - 1 ==> LineFull(width, maxWidth, Split(text), lines, k)
  {
    var words := Split(text);
    SplitKeepsPrintable(text);
    if words == [] {
      NothingToWrap(text);
      return [];
    }
    var placed, current, breaks := PlaceWords(width, maxWidth, words);
    Wrapped(width, maxWidth, text, placed, current, breaks);
    lines := placed;
    if current != [] {
      lines := lines + [Join(current)];
    }
    assert lines == Flushed(placed, current);
    if lines == [] {
      lines := [text];
    }
  }

  /** The measure that counts characters. */
  function CharCount(s: string): int
  {
    |s|
  }

  /** No reason to end line `k` exists when every word fits after it and no
      word is too wide for a line of its own. */
  lemma NotLineFull(width: string -> int, maxWidth: int, words: seq<string>, lines: seq<string>, k: nat)
    requires k < |lines|
    requires forall i :: 0 <= i < |words| ==> width(lines[k] + " " + words[i]) <= maxWidth
    requires forall i :: 0 <= i < |words| ==> width(words[i]) <= maxWidth
    ensures !LineFull(width, maxWidth, words, lines, k)
  {
  }

  /** The greedy rule rejects a line broken early: with the character count as
      the measure and a width of 3, "a b" fits on one line, so the lines "a"
      and "b" are not a wrap of it. */
  lemma EarlyBreakIsNotGreedy()
    ensures !LineFull(CharCount, 3, Split("a b"), ["a", "b"], 0)
  {
    var text := "a b";
    assert text[1..] == " b" && text[..1] == "a" && " b"[1..] == "b" && "b"[1..] == "";
    assert !IsSpace('a') && IsSpace(' ') && !IsSpace('b');
    assert WordLength(text) == 1 && WordLength("b") == 1;
    assert Split("") == [];
    assert "b"[..1] == "b";
    assert Split("b") == ["b"[..1]] + Split("b"[1..]);
    assert Split("b") == ["b"];
    assert Split(text) == ["a"] + Split(" b") == ["a", "b"];
    NotLineFull(CharCount, 3, ["a", "b"], ["a", "b"], 0);
  }

  /** A line that ends before a word that would still fit on it is not
      greedy, even when a later word shares its first characters: with the
      words "x", "ab", "abzzzz" and a width of 4 characters, the first line
      is "x ab", so "x" is not a line of the wrap. */
  lemma EarlyBreakBeforeSharedPrefix()
    ensures !LineFull(CharCount, 4, ["x", "ab", "abzzzz"], ["x", "ab", "abzz", "zz"], 0)
  {
    var words, lines := ["x", "ab", "abzzzz"], ["x", "ab", "abzz", "zz"];
    assert lines[..1] == ["x"] && Concat(["x"]) == "x" by {
      ConcatSnoc([], "x");
      assert [] + ["x"] == ["x"];
    }
    assert Printable("x") == "x" by {
      assert !IsSpace('x') && "x"[..0] == "";
    }
    assert Concat(words[..0]) == "";
    assert Concat(words[..2]) == "xab" by {
      assert words[..2] == ["x"] + ["ab"];
      ConcatSnoc(["x"], "ab");
    }
    assert Concat(words[..3]) == "xababzzzz" by {
      assert words[..3] == words[..2] + ["abzzzz"];
      ConcatSnoc(words[..2], "abzzzz");
    }
    forall i: nat | true
      ensures !EndsBefore(CharCount, 4, words, lines, 0, i)
    {
      if i == 2 {
        assert |Concat(words[..2])| == 3;
      }
    }
    forall i: nat, j: nat | true
      ensures !EndsInside(CharCount, 4, words, lines, 0, i, j)
    {
      if i == 2 && j <= |words[2]| {
        assert |Concat(words[..2]) + words[2][..j]| >= 3;
      }
    }
  }

  /** A measure under which "a b" alone is too wide. */
  function WideMiddle(s: string): int
  {
    if s == "a b" then 100 else |s|
  }

  /** A line the word loop cannot build: "a b c" is at most 5 characters,
      but its test line "a b" did not fit, so "c" could never join it. */
  lemma UntestedLineExcluded()
    ensures Fits(WideMiddle, 5, "a b c")
    ensures !JoinsFit(WideMiddle, 5, "a b c")
  {
    var line := "a b c";
    assert line[3] == ' ' && line[..3] == "a b";
  }

  /** A measure under which "ab" alone is too wide. */
  function WidePrefix(s: string): int
  {
    if s == "ab" then 100 else 1
  }

  /** A piece the character loop cannot build: "abc" is narrow, but its test
      piece "ab" was not, so the loop finished "a" instead. */
  lemma UntestedPieceExcluded()
    ensures Fits(WidePrefix, 2, "abc")
    ensures !PieceFits(WidePrefix, 2, "abc")
  {
    assert "abc"[..2] == "ab";
  }


  /** The length of the run of white space that starts `s`. */
  function Leading(s: string): (n: nat)
    ensures n <= |s|
    ensures AllSpace(s[..n])
    ensures n == |s| || !IsSpace(s[n])
  {
    if s == [] || !IsSpace(s[0]) then 0
    else
      var n := 1 + Leading(s[1..]);
      assert forall k :: 0 < k < n ==> s[..n][k] == s[1..][..n - 1][k - 1];
      n
  }

  /** The length of the run of white space that ends `s`. */
  function Trailing(s: string): (n: nat)
    ensures n <= |s|
    ensures AllSpace(s[|s| - n..])
    ensures n == |s| || !IsSpace(s[|s| - n - 1])
  {
    if s == [] || !IsSpace(s[|s| - 1]) then 0
    else
      var init := s[..|s| - 1];
      var n := 1 + Trailing(init);
      assert forall k :: |s| - n <= k < |s| - 1 ==> s[k] == init[k];
      n
  }

  lemma {:induction false} PrintableOfAllSpace(s: string)
    requires AllSpace(s)
    ensures Printable(s) == ""
  {
    if s != [] {
      PrintableOfAllSpace(s[..|s| - 1]);
    }
  }

  /** `str.strip()`: the text without its leading and trailing white space;
      everything between, inner white space included, is kept as it is. */
  function Strip(s: string): (r: string)
    ensures r == "" <==> AllSpace(s)
    ensures r != "" ==> !IsSpace(r[0]) && !IsSpace(r[|r| - 1])
    ensures exists i, j :: Trimmed(s, r, i, j)
    ensures Printable(r) == Printable(s)
  {
    var i := Leading(s);
    if i == |s| then
      StripSpace(s);
      ""
    else
      var j := |s| - Trailing(s);
      StripParts(s, i, j);
      s[i..j]
  }

  /** `r` is the slice `s[i..j]` with only white space before and after it. */
  predicate Trimmed(s: string, r: string, i: nat, j: nat)
  {
    i <= j <= |s| && r == s[i..j] && AllSpace(s[..i]) && AllSpace(s[j..])
  }

  lemma StripSpace(s: string)
    requires AllSpace(s[..|s|])
    ensures AllSpace(s) && Printable(s) == ""
    ensures Trimmed(s, "", |s|, |s|)
  {
    assert s[..|s|] == s;
    PrintableOfAllSpace(s);
  }

  lemma StripParts(s: string, i: nat, j: nat)
    requires i < |s| && AllSpace(s[..i]) && !IsSpace(s[i])
    requires j <= |s| && AllSpace(s[j..]) && (j == 0 || !IsSpace(s[j - 1]))
    ensures i < j
    ensures var r := s[i..j];
      && r != "" && !AllSpace(s)
      && !IsSpace(r[0]) && !IsSpace(r[|r| - 1])
      && Trimmed(s, r, i, j)
      && Printable(r) == Printable(s)
  {
    SpaceInSuffix(s, j, i);
    assert s[i..j][0] == s[i] && s[i..j][j - i - 1] == s[j - 1];
    PrintableMiddle(s, i, j);
  }

  lemma SpaceInSuffix(s: string, j: nat, i: nat)
    requires j <= |s| && AllSpace(s[j..]) && i < |s|
    ensures j <= i ==> IsSpace(s[i])
  {
    if j <= i {
      assert s[j..][i - j] == s[i];
    }
  }

  lemma PrintableMiddle(s: string, i: nat, j: nat)
    requires i <= j <= |s| && AllSpace(s[..i]) && AllSpace(s[j..])
    ensures Printable(s[i..j]) == Printable(s)
  {
    var pre, mid, post := s[..i], s[i..j], s[j..];
    assert pre + mid == s[..j];
    assert s[..j] + post == s;
    PrintableAppend(s[..j], post);
    PrintableAppend(pre, mid);
    PrintableOfAllSpace(pre);
    PrintableOfAllSpace(post);
  }

  /** Seconds after its last update before a caption disappears. */
  const CAPTION_TIMEOUT: real := 2.0

  /** The caption state that the transcription thread writes and the video
      loop reads, both under `caption_lock`. */
  class Caption {
    var text: string
    var lastUpdate: real

    /** The caption text is never empty: it starts as "Listening..." and
        is only replaced by non-empty transcripts. */
    ghost predicate Valid()
      reads this
    {
      text != ""
    }

    constructor (now: real)
      ensures Valid()
      ensures text == "Listening..." && lastUpdate == now
    {
      text := "Listening...";
      lastUpdate := now;
    }

    /** A final or partial result from the recognizer: once stripped, a
        non-empty result becomes the caption and restarts its timer; an
        empty one changes nothing. */
    method Publish(result: string, now: real)
      requires Valid()
      modifies this
      ensures Valid()
      ensures Strip(result) != "" ==> text == Strip(result) && lastUpdate == now
      ensures Strip(result) == "" ==> text == old(text) && lastUpdate == old(lastUpdate)
    {
      var t := Strip(result);
      if t != "" {
        text := t;
        lastUpdate := now;
      }
    }

    /** One frame of the video loop reading the caption at time `now`. */
    method Current(now: real) returns (caption: string)
      requires Valid()
      ensures caption == "" <==> now - lastUpdate > CAPTION_TIMEOUT
      ensures caption != "" ==> caption == text
    {
      if now - lastUpdate > CAPTION_TIMEOUT {
        caption := "";
      } else {
        caption := text;
      }
    }
  }
}
