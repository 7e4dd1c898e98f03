/** The greedy word wrap of the journey animation (`splitIntoLines` in
    src/components/JourneyAnimation.jsx). The text is split on single
    spaces; each word either joins the current line, with one space, or, when
    `current.length + word.length + 1` exceeds the width, starts a new line.
    The loop pushes the current line even when it is empty, so a first word
    as long as the width produces a blank first line. `Place` takes a flag
    saying whether an empty current line is pushed like that: the code as
    written does (`SplitLines`), the evidently intended wrap does not
    (`SplitLinesCorrected`). */
module JourneyAnimation {
  import opened Strings

  /** The loop's two variables: the lines pushed so far and `current`. */
  datatype Wrapping = Wrapping(lines: seq<string>, current: string)

  /** One iteration of the loop for `word`. */
  function Place(w: Wrapping, word: string, maxLen: int, breakWhenEmpty: bool): Wrapping
  {
    if |w.current| + |word| + 1 > maxLen && (breakWhenEmpty || w.current != "") then
      Wrapping(w.lines + [w.current], word)
    else if w.current != "" then
      Wrapping(w.lines, w.current + " " + word)
    else
      Wrapping(w.lines, word)
  }

  /** The loop's state after the given words, taken from the left. */
  function Fill(words: seq<string>, maxLen: int, breakWhenEmpty: bool): Wrapping
  {
    if |words| == 0 then Wrapping([], "")
    else Place(Fill(words[..|words| - 1], maxLen, breakWhenEmpty), words[|words| - 1], maxLen, breakWhenEmpty)
  }

  /** `if (current) lines.push(current)` */
  function Flush(w: Wrapping): seq<string>
  {
    if w.current != "" then w.lines + [w.current] else w.lines
  }

  function Wrap(text: string, maxLen: int, breakWhenEmpty: bool): seq<string>
  {
    Flush(Fill(Split(text, ' '), maxLen, breakWhenEmpty))
  }

  /** `splitIntoLines(text, maxLen)` as written. */
  function SplitLines(text: string, maxLen: int): seq<string>
  {
    Wrap(text, maxLen, true)
  }

  /** The wrap without the blank line: an empty current line is never
      pushed. */
  function SplitLinesCorrected(text: string, maxLen: int): seq<string>
  {
    Wrap(text, maxLen, false)
  }

  /** The loop itself. */
  method SplitIntoLines(text: string, maxLen: int) returns (lines: seq<string>)
    ensures lines == SplitLines(text, maxLen)
  {
    var words := Split(text, ' ');
    lines := [];
    var current := "";
    for i := 0 to |words|
      invariant Wrapping(lines, current) == Fill(words[..i], maxLen, true)
    {
      assert words[..i + 1][..i] == words[..i];
      var word := words[i];
      if |current| + |word| + 1 > maxLen {
        lines := lines + [current];
        current := word;
      } else {
        current := if current != "" then current + " " + word else word;
      }
    }
    assert words[..|words|] == words;
    if current != "" {
      lines := lines + [current];
    }
  }

  // ---------------------------------------------------------------------
  // Line lengths

  /** A line with a space fits the width; a line wider than the width is
      one of the words (or empty). */
  predicate LineOk(x: string, words: seq<string>, maxLen: int)
  {
    (' ' in x ==> |x| <= maxLen) && (|x| > maxLen ==> x in words || x == "")
  }

  lemma {:induction false} FillLinesOk(words: seq<string>, maxLen: int, b: bool)
    requires forall k :: 0 <= k < |words| ==> ' ' !in words[k]
    ensures var w := Fill(words, maxLen, b);
      (forall k :: 0 <= k < |w.lines| ==> LineOk(w.lines[k], words, maxLen))
      && LineOk(w.current, words, maxLen)
  {
    if |words| > 0 {
      var p := words[..|words| - 1];
      var word := words[|words| - 1];
      FillLinesOk(p, maxLen, b);
      var w := Fill(p, maxLen, b);
      forall x | LineOk(x, p, maxLen) ensures LineOk(x, words, maxLen) {
        if x in p {
          var j :| 0 <= j < |p| && p[j] == x;
          assert words[j] == x;
        }
      }
      assert ' ' !in word;
      assert word in words;
    }
  }

  /** Any line that joined words fits the width, and a line wider than the
      width is a single word. */
  lemma LongLinesAreWords(text: string, maxLen: int, b: bool)
    ensures var r := Wrap(text, maxLen, b);
      forall k :: 0 <= k < |r| ==> (' ' in r[k] ==> |r[k]| <= maxLen)
    ensures var r := Wrap(text, maxLen, b);
      forall k :: 0 <= k < |r| ==> (|r[k]| > maxLen ==> r[k] in Split(text, ' ') || r[k] == "")
  {
    var words := Split(text, ' ');
    FillLinesOk(words, maxLen, b);
    var w := Fill(words, maxLen, b);
    var r := Flush(w);
    forall k | 0 <= k < |r| ensures LineOk(r[k], words, maxLen) {
      if k < |w.lines| {
        assert r[k] == w.lines[k];
      }
    }
  }

  // ---------------------------------------------------------------------
  // Empty lines

  /** The empty text: no lines for a positive width; as written, a single
      empty line otherwise. */
  lemma EmptyText(maxLen: int)
    ensures maxLen >= 1 ==> SplitLines("", maxLen) == []
    ensures maxLen < 1 ==> SplitLines("", maxLen) == [""]
    ensures SplitLinesCorrected("", maxLen) == []
  {
    var words := Split("", ' ');
    assert words == [""];
    assert words[..0] == [];
    assert Fill(words, maxLen, true) == Place(Wrapping([], ""), "", maxLen, true);
    assert Fill(words, maxLen, false) == Place(Wrapping([], ""), "", maxLen, false);
  }

  lemma {:induction false} FillLastNotEmpty(words: seq<string>, maxLen: int, b: bool)
    requires maxLen >= 1
    ensures var w := Fill(words, maxLen, b);
      w.current == "" ==> w.lines == [] || w.lines[|w.lines| - 1] != ""
  {
    if |words| > 0 {
      FillLastNotEmpty(words[..|words| - 1], maxLen, b);
    }
  }

  /** For a positive width the last line is never empty. */
  lemma NoTrailingEmptyLine(text: string, maxLen: int, b: bool)
    requires maxLen >= 1
    ensures var r := Wrap(text, maxLen, b);
      r == [] || r[|r| - 1] != ""
  {
    FillLastNotEmpty(Split(text, ' '), maxLen, b);
  }

  predicate HasLongWord(words: seq<string>, maxLen: int)
  {
    exists k :: 0 <= k < |words| && |words[k]| + 1 > maxLen
  }

  lemma {:induction false} FillEmptyLines(words: seq<string>, maxLen: int, b: bool)
    ensures "" in Fill(words, maxLen, b).lines ==> HasLongWord(words, maxLen)
  {
    if |words| > 0 {
      var p := words[..|words| - 1];
      var word := words[|words| - 1];
      FillEmptyLines(p, maxLen, b);
      var w := Fill(p, maxLen, b);
      if "" in Fill(words, maxLen, b).lines {
        if "" in w.lines {
          var k :| 0 <= k < |p| && |p[k]| + 1 > maxLen;
          assert words[k] == p[k];
        } else {
          assert w.current == "" && |word| + 1 > maxLen;
          assert words[|words| - 1] == word;
        }
      }
    }
  }

  /** A word of `words` whose length plus one exceeds the width. */
  predicate LongWordOf(x: string, words: seq<string>, maxLen: int)
  {
    x in words && |x| + 1 > maxLen
  }

  /** What follows line `k`: the next line, or the current line after the
      last pushed one. */
  function Next(w: Wrapping, k: int): string
  {
    if 0 <= k && k + 1 < |w.lines| then w.lines[k + 1] else w.current
  }

  /** Every empty line is followed by a long word. */
  predicate EmptyLinesFollowed(w: Wrapping, words: seq<string>, maxLen: int)
  {
    forall k :: 0 <= k < |w.lines| && w.lines[k] == "" ==> LongWordOf(Next(w, k), words, maxLen)
  }

  lemma {:induction false} FillEmptyFollowed(words: seq<string>, maxLen: int, b: bool)
    requires maxLen >= 1
    ensures EmptyLinesFollowed(Fill(words, maxLen, b), words, maxLen)
  {
    if |words| > 0 {
      var p := words[..|words| - 1];
      var word := words[|words| - 1];
      FillEmptyFollowed(p, maxLen, b);
      var w := Fill(p, maxLen, b);
      var r := Fill(words, maxLen, b);
      assert r == Place(w, word, maxLen, b);
      assert word in words;
      forall k | 0 <= k < |r.lines| && r.lines[k] == ""
        ensures LongWordOf(Next(r, k), words, maxLen)
      {
        FollowerOf(w, p, word, maxLen, b, k);
        if Next(r, k) != word {
          LongWordGrows(Next(w, k), p, words, maxLen);
        }
      }
    }
  }

  /** What follows an empty line after one more word: the word itself, or
      what followed it before. */
  lemma FollowerOf(w: Wrapping, p: seq<string>, word: string, maxLen: int, b: bool, k: int)
    requires maxLen >= 1
    requires EmptyLinesFollowed(w, p, maxLen)
    requires var r := Place(w, word, maxLen, b); 0 <= k < |r.lines| && r.lines[k] == ""
    ensures var r := Place(w, word, maxLen, b);
      (Next(r, k) == word && |word| + 1 > maxLen)
      || (k < |w.lines| && w.lines[k] == "" && Next(r, k) == Next(w, k))
  {
    if k < |w.lines| {
      assert LongWordOf(Next(w, k), p, maxLen);
    }
  }

  lemma LongWordGrows(x: string, p: seq<string>, words: seq<string>, maxLen: int)
    requires |words| > 0 && p == words[..|words| - 1]
    requires LongWordOf(x, p, maxLen)
    ensures LongWordOf(x, words, maxLen)
  {
    var j :| 0 <= j < |p| && p[j] == x;
    assert words[j] == x;
  }

  /** An empty line is pushed only when the word that arrives on an empty
      current line is too long to fit with a space: that word is the next
      line. Without a positive width, some word is still that long. */
  lemma EmptyLinesNeedLongWords(text: string, maxLen: int, b: bool)
    ensures "" in Wrap(text, maxLen, b) ==> HasLongWord(Split(text, ' '), maxLen)
    ensures var r := Wrap(text, maxLen, b);
      maxLen >= 1 ==> forall k :: 0 <= k < |r| && r[k] == "" ==>
        k + 1 < |r| && LongWordOf(r[k + 1], Split(text, ' '), maxLen)
  {
    var words := Split(text, ' ');
    FillEmptyLines(words, maxLen, b);
    if maxLen >= 1 {
      FillEmptyFollowed(words, maxLen, b);
      var w := Fill(words, maxLen, b);
      var r := Flush(w);
      forall k | 0 <= k < |r| && r[k] == ""
        ensures k + 1 < |r| && LongWordOf(r[k + 1], words, maxLen)
      {
        assert k < |w.lines| && w.lines[k] == "";
        assert LongWordOf(Next(w, k), words, maxLen);
      }
    }
  }

  lemma {:induction false} FillKeepsEmpty(words: seq<string>, maxLen: int)
    ensures "" !in Fill(words, maxLen, false).lines
  {
    if |words| > 0 {
      FillKeepsEmpty(words[..|words| - 1], maxLen);
    }
  }

  /** The corrected wrap never produces an empty line. */
  lemma CorrectedHasNoEmptyLines(text: string, maxLen: int)
    ensures "" !in SplitLinesCorrected(text, maxLen)
  {
    FillKeepsEmpty(Split(text, ' '), maxLen);
  }

  lemma {:induction false} FillLeadingEmpty(words: seq<string>, maxLen: int)
    requires |words| > 0 && |words[0]| + 1 > maxLen
    ensures var w := Fill(words, maxLen, true);
      |w.lines| > 0 && w.lines[0] == ""
  {
    if |words| > 1 {
      var p := words[..|words| - 1];
      assert p[0] == words[0];
      FillLeadingEmpty(p, maxLen);
    } else {
      assert words[..0] == [];
    }
  }

  /** As written, a first word whose length plus one exceeds the width
      leaves an empty first line. */
  lemma LeadingEmptyLine(text: string, maxLen: int)
    requires |Split(text, ' ')[0]| + 1 > maxLen
    ensures var r := SplitLines(text, maxLen);
      |r| > 0 && r[0] == ""
  {
    FillLeadingEmpty(Split(text, ' '), maxLen);
  }

  /** "ab" at width 2: the code as written starts with an empty line, the
      corrected wrap does not. */
  lemma BlankFirstLine()
    ensures SplitLines("ab", 2) == ["", "ab"]
    ensures SplitLinesCorrected("ab", 2) == ["ab"]
  {
    var e := Split("", ' ');
    assert e == [""] && e[1..] == [];
    assert "b"[1..] == "" && "ab"[1..] == "b";
    var sb := Split("b", ' ');
    assert sb == [['b'] + e[0]] + e[1..];
    assert ['b'] + e[0] == "b";
    assert sb == ["b"] && sb[1..] == [];
    assert Split("ab", ' ') == [['a'] + sb[0]] + sb[1..];
    assert ['a'] + sb[0] == "ab";
    assert Split("ab", ' ') == ["ab"];
    assert ["ab"][..0] == [];
  }

  // ---------------------------------------------------------------------
  // Word order

  /** The lines that are not empty. */
  function NonEmpty(l: seq<string>): (r: seq<string>)
    ensures forall k :: 0 <= k < |r| ==> r[k] != ""
  {
    if |l| == 0 then []
    else NonEmpty(l[..|l| - 1]) + (if l[|l| - 1] != "" then [l[|l| - 1]] else [])
  }

  lemma NonEmptySnoc(l: seq<string>, x: string)
    ensures NonEmpty(l + [x]) == NonEmpty(l) + (if x != "" then [x] else [])
  {
    assert (l + [x])[..|l|] == l;
  }

  lemma {:induction false} NonEmptyIdentity(l: seq<string>)
    requires "" !in l
    ensures NonEmpty(l) == l
  {
    if |l| > 0 {
      NonEmptyIdentity(l[..|l| - 1]);
      assert l[..|l| - 1] + [l[|l| - 1]] == l;
    }
  }

  lemma JoinSnocOrSingle(x: seq<string>, word: string, sep: string)
    ensures Join(x + [word], sep) == if x == [] then word else Join(x, sep) + sep + word
  {
    if x != [] {
      JoinSnoc(x, word, sep);
    }
  }

  /** Appending a word as a line of its own, or onto an empty current
      line, adds it to the non-empty lines. */
  lemma AppendWordLine(x: seq<string>, y: seq<string>, word: string)
    requires y == x + [word]
    ensures Join(y, " ") == if x == [] then word else Join(x, " ") + " " + word
  {
    JoinSnocOrSingle(x, word, " ");
  }

  /** Extending the current line by a word extends the last non-empty line. */
  lemma ExtendLastLine(n: seq<string>, cur: string, word: string)
    ensures Join(n + [cur + " " + word], " ") == Join(n + [cur], " ") + " " + word
  {
    JoinSnocOrSingle(n, cur + " " + word, " ");
    JoinSnocOrSingle(n, cur, " ");
    if n != [] {
      Associative(Join(n, " ") + " ", cur, " " + word);
    }
  }

  /** One step keeps the non-empty lines' text equal to the words so far
      with the new word appended. */
  lemma PlaceJoin(w: Wrapping, word: string, maxLen: int, b: bool)
    requires word != ""
    ensures var x := NonEmpty(Flush(w));
      var y := NonEmpty(Flush(Place(w, word, maxLen, b)));
      y != [] && Join(y, " ") == if x == [] then word else Join(x, " ") + " " + word
  {
    var x := NonEmpty(Flush(w));
    var n := NonEmpty(w.lines);
    NonEmptySnoc(w.lines, w.current);
    if |w.current| + |word| + 1 > maxLen && (b || w.current != "") {
      NonEmptySnoc(w.lines + [w.current], word);
      AppendWordLine(x, NonEmpty(Flush(Place(w, word, maxLen, b))), word);
    } else if w.current != "" {
      NonEmptySnoc(w.lines, w.current + " " + word);
      assert x == n + [w.current];
      ExtendLastLine(n, w.current, word);
    } else {
      NonEmptySnoc(w.lines, word);
      AppendWordLine(x, NonEmpty(Flush(Place(w, word, maxLen, b))), word);
    }
  }

  lemma {:induction false} FillJoin(words: seq<string>, maxLen: int, b: bool)
    requires forall k :: 0 <= k < |words| ==> words[k] != ""
    ensures var f := NonEmpty(Flush(Fill(words, maxLen, b)));
      Join(f, " ") == Join(words, " ") && (f == [] <==> words == [])
  {
    if |words| > 0 {
      var p := words[..|words| - 1];
      var word := words[|words| - 1];
      assert words == p + [word];
      FillJoin(p, maxLen, b);
      PlaceJoin(Fill(p, maxLen, b), word, maxLen, b);
      JoinSnocOrSingle(p, word, " ");
    }
  }

  /** For text whose words are separated by single spaces, with no space at
      either end, the non-empty lines joined by spaces give the text back:
      no word is lost, split or reordered. */
  lemma KeepsWords(text: string, maxLen: int, b: bool)
    requires forall k :: 0 <= k < |Split(text, ' ')| ==> Split(text, ' ')[k] != ""
    ensures Join(NonEmpty(Wrap(text, maxLen, b)), " ") == text
  {
    FillJoin(Split(text, ' '), maxLen, b);
    JoinSplit(text, ' ');
  }

  /** The corrected wrap needs no filtering: its lines joined by spaces are
      the text. */
  lemma CorrectedKeepsWords(text: string, maxLen: int)
    requires forall k :: 0 <= k < |Split(text, ' ')| ==> Split(text, ' ')[k] != ""
    ensures Join(SplitLinesCorrected(text, maxLen), " ") == text
  {
    KeepsWords(text, maxLen, false);
    CorrectedHasNoEmptyLines(text, maxLen);
    NonEmptyIdentity(SplitLinesCorrected(text, maxLen));
  }
}
