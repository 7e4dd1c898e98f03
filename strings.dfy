/** String operations of the JavaScript runtime that the core relies on:
    `Array.prototype.join`, `String.prototype.split` on one character,
    `String.prototype.trim`, ASCII `toLowerCase`, the `/\s+/g` replacement used
    for file names, and `String(n)` for natural numbers. Strings are sequences
    of characters; the JavaScript notion of whitespace is written out. */
module Strings {

  /** `parts.join(sep)`: the parts with `sep` between neighbours. */
  function Join(parts: seq<string>, sep: string): string
  {
    if |parts| == 0 then ""
    else if |parts| == 1 then parts[0]
    else parts[0] + sep + Join(parts[1..], sep)
  }

  lemma JoinCons(parts: seq<string>, sep: string)
    requires |parts| >= 2
    ensures Join(parts, sep) == parts[0] + sep + Join(parts[1..], sep)
  {
  }

  /** A part in front of a non-empty list adds the part and one separator. */
  lemma JoinFront(w: string, parts: seq<string>, sep: string)
    requires |parts| > 0
    ensures Join([w] + parts, sep) == w + sep + Join(parts, sep)
  {
    assert ([w] + parts)[1..] == parts;
  }

  /** A part and an empty part in front of a non-empty list add the part
      and two separators. */
  lemma JoinBlankAfter(w: string, parts: seq<string>, sep: string)
    requires |parts| > 0
    ensures Join([w, ""] + parts, sep) == w + sep + sep + Join(parts, sep)
  {
    assert [w, ""] + parts == [w] + ([""] + parts);
    JoinFront(w, [""] + parts, sep);
    JoinFront("", parts, sep);
    assert "" + sep == sep;
  }

  /** A part enclosed between two copies of a delimiter and followed by an
      empty part, in front of a non-empty list. */
  lemma JoinEnclosed(f: string, w: string, parts: seq<string>, sep: string)
    requires |parts| > 0
    ensures Join([f, w, f, ""] + parts, sep) == f + sep + w + sep + (f + sep + sep) + Join(parts, sep)
  {
    var u := [f, ""] + parts;
    assert [f, w, f, ""] + parts == [f] + ([w] + u);
    JoinFront(f, [w] + u, sep);
    JoinFront(w, u, sep);
    JoinBlankAfter(f, parts, sep);
    RegroupLines(f, sep, w, f + sep + sep, Join(parts, sep));
  }

  /** A part followed by an empty part: the part and one separator. */
  lemma JoinBlankLast(w: string, sep: string)
    ensures Join([w, ""], sep) == w + sep
  {
    assert [w, ""][1..] == [""];
  }

  /** Appending one part adds one separator and the part at the end. */
  lemma {:induction false} JoinSnoc(parts: seq<string>, w: string, sep: string)
    requires |parts| > 0
    ensures Join(parts + [w], sep) == Join(parts, sep) + sep + w
  {
    if |parts| == 1 {
      assert (parts + [w])[1..] == [w];
    } else {
      assert (parts + [w])[1..] == parts[1..] + [w];
      JoinSnoc(parts[1..], w, sep);
    }
  }

  /** `s.split(c)` for a one-character separator: the maximal pieces between
      occurrences of `c`; there is always at least one piece. */
  function Split(s: string, c: char): (pieces: seq<string>)
    ensures |pieces| >= 1
    ensures forall i :: 0 <= i < |pieces| ==> c !in pieces[i]
  {
    if |s| == 0 then [""]
    else
      var rest := Split(s[1..], c);
      if s[0] == c then [""] + rest
      else [[s[0]] + rest[0]] + rest[1..]
  }

  /** Splitting and joining with the same character gives the input back. */
  lemma {:induction false} JoinSplit(s: string, c: char)
    ensures Join(Split(s, c), [c]) == s
  {
    if |s| > 0 {
      var rest := Split(s[1..], c);
      JoinSplit(s[1..], c);
      if s[0] == c {
        assert ([""] + rest)[1..] == rest;
      } else {
        var pieces := [[s[0]] + rest[0]] + rest[1..];
        if |rest| == 1 {
          assert pieces == [[s[0]] + rest[0]];
        } else {
          assert pieces[1..] == rest[1..];
          assert Join(rest, [c]) == rest[0] + [c] + Join(rest[1..], [c]);
        }
      }
    }
  }

  /** A string without separator characters is one piece. */
  lemma {:induction false} SplitWithout(s: string, c: char)
    requires c !in s
    ensures Split(s, c) == [s]
  {
    if |s| > 0 {
      SplitWithout(s[1..], c);
      assert [s[0]] + s[1..] == s;
    }
  }

  /** The characters `String.prototype.trim` and the regular expression class
      `\s` treat as white space: the WhiteSpace and LineTerminator code points
      of ECMA-262 (section 12.2 and 12.3), with the Unicode "Zs" category
      spelled out as of Unicode 15. */
  predicate IsSpace(c: char)
  {
    || c == '\t' || c == '\n' || c == '\U{000B}' || c == '\U{000C}' || c == '\r'
    || c == ' ' || c == '\U{00A0}' || c == '\U{1680}'
    || ('\U{2000}' <= c <= '\U{200A}')
    || c == '\U{2028}' || c == '\U{2029}' || c == '\U{202F}' || c == '\U{205F}'
    || c == '\U{3000}' || c == '\U{FEFF}'
  }

  predicate AllSpace(s: string)
  {
    forall i :: 0 <= i < |s| ==> IsSpace(s[i])
  }

  /** Drops the leading white space. */
  function TrimStart(s: string): (r: string)
    ensures |r| <= |s| && r == s[|s| - |r|..]
    ensures forall i :: 0 <= i < |s| - |r| ==> IsSpace(s[i])
    ensures r == "" || !IsSpace(r[0])
  {
    if |s| > 0 && IsSpace(s[0]) then
      var r := TrimStart(s[1..]);
      SpaceInFront(s, r);
      r
    else s
  }

  /** One more white space character in front of a trimmed-off prefix. */
  lemma SpaceInFront(s: string, r: string)
    requires |s| > 0 && IsSpace(s[0])
    requires |r| <= |s| - 1 && r == s[1..][|s| - 1 - |r|..]
    requires forall i :: 0 <= i < |s| - 1 - |r| ==> IsSpace(s[1..][i])
    ensures r == s[|s| - |r|..]
    ensures forall i :: 0 <= i < |s| - |r| ==> IsSpace(s[i])
  {
    forall i | 0 <= i < |s| - |r|
      ensures IsSpace(s[i])
    {
      if i > 0 {
        assert s[i] == s[1..][i - 1];
      }
    }
  }

  /** Drops the trailing white space. */
  function TrimEnd(s: string): (r: string)
    ensures |r| <= |s| && r == s[..|r|]
    ensures forall i :: |r| <= i < |s| ==> IsSpace(s[i])
    ensures r == "" || !IsSpace(r[|r| - 1])
  {
    if |s| > 0 && IsSpace(s[|s| - 1]) then
      var r := TrimEnd(s[..|s| - 1]);
      r
    else s
  }

  /** `s.trim()`: the result neither starts nor ends with white space, and it
      is empty exactly when the input is all white space. */
  function Trim(s: string): (r: string)
    ensures r == "" || (!IsSpace(r[0]) && !IsSpace(r[|r| - 1]))
    ensures AllSpace(s) <==> r == ""
  {
    var t := TrimStart(s);
    var r := TrimEnd(t);
    TrimParts(s, t, r);
    r
  }

  lemma TrimParts(s: string, t: string, r: string)
    requires |t| <= |s| && t == s[|s| - |t|..]
    requires forall i :: 0 <= i < |s| - |t| ==> IsSpace(s[i])
    requires t == "" || !IsSpace(t[0])
    requires |r| <= |t| && r == t[..|r|]
    requires forall i :: |r| <= i < |t| ==> IsSpace(t[i])
    ensures s == s[..|s| - |t|] + r + t[|r|..]
    ensures AllSpace(s[..|s| - |t|]) && AllSpace(t[|r|..])
    ensures AllSpace(s) <==> r == ""
  {
    var lead := s[..|s| - |t|];
    var trail := t[|r|..];
    forall i | 0 <= i < |lead| ensures IsSpace(lead[i]) {
      assert lead[i] == s[i];
    }
    forall i | 0 <= i < |trail| ensures IsSpace(trail[i]) {
      assert trail[i] == t[|r| + i];
    }
    assert s == lead + t;
    assert t == r + trail;
    assert s == lead + r + trail;
    if r == "" {
      assert t == "";
    } else {
      assert t[0] == r[0] && !IsSpace(t[0]);
      assert s[|lead|] == t[0];
    }
  }

  /** Trimming only removes white space: the input is the result with white
      space on either side. */
  lemma TrimShape(s: string)
    ensures exists lead, trail :: s == lead + Trim(s) + trail && AllSpace(lead) && AllSpace(trail)
  {
    var t := TrimStart(s);
    var r := TrimEnd(t);
    TrimParts(s, t, r);
    assert Trim(s) == r;
    var lead, trail := s[..|s| - |t|], t[|r|..];
    assert s == lead + r + trail;
  }

  /** ASCII lower-casing of one character. */
  function LowerChar(c: char): (d: char)
    ensures !('A' <= d <= 'Z')
    ensures IsSpace(d) <==> IsSpace(c)
    ensures !('A' <= c <= 'Z') ==> d == c
  {
    if 'A' <= c <= 'Z' then (c as int + 32) as char else c
  }

  /** `s.toLowerCase()` restricted to the ASCII letters. */
  function ToLower(s: string): (r: string)
    ensures |r| == |s|
    ensures forall i :: 0 <= i < |s| ==> r[i] == LowerChar(s[i])
  {
    if |s| == 0 then "" else [LowerChar(s[0])] + ToLower(s[1..])
  }

  /** Lower-casing distributes over joining. */
  lemma {:induction false} ToLowerJoin(words: seq<string>, sep: string)
    ensures ToLower(Join(words, sep)) == Join(ToLowerAll(words), ToLower(sep))
  {
    if |words| >= 2 {
      ToLowerJoin(words[1..], sep);
      assert ToLowerAll(words)[1..] == ToLowerAll(words[1..]);
      ToLowerConcat(words[0] + sep, Join(words[1..], sep));
      ToLowerConcat(words[0], sep);
    }
  }

  function ToLowerAll(words: seq<string>): (r: seq<string>)
    ensures |r| == |words|
    ensures forall k :: 0 <= k < |words| ==> r[k] == ToLower(words[k])
  {
    if |words| == 0 then [] else [ToLower(words[0])] + ToLowerAll(words[1..])
  }

  /** Only the letters a to z: no capital, no whitespace. */
  predicate LowerLetters(s: string)
  {
    forall i :: 0 <= i < |s| ==> 'a' <= s[i] <= 'z'
  }

  lemma LowerOfNoCapitals(s: string)
    requires NoCapitals(s)
    ensures ToLower(s) == s
  {
  }

  lemma ToLowerConcat(a: string, b: string)
    ensures ToLower(a + b) == ToLower(a) + ToLower(b)
  {
    assert forall i :: 0 <= i < |a + b| ==> ToLower(a + b)[i] == (ToLower(a) + ToLower(b))[i];
  }

  /** `s.replace(/\s+/g, dash)`: every maximal run of white space becomes one
      copy of `dash`. */
  function CollapseSpaces(s: string, dash: char): (r: string)
    requires !IsSpace(dash)
    ensures forall i :: 0 <= i < |r| ==> !IsSpace(r[i])
    ensures |r| <= |s|
    decreases |s|
  {
    if |s| == 0 then ""
    else if IsSpace(s[0]) then [dash] + CollapseSpaces(TrimStart(s[1..]), dash)
    else [s[0]] + CollapseSpaces(s[1..], dash)
  }

  /** Characters other than white space pass through unchanged. */
  lemma {:induction false} CollapseWithoutSpaces(s: string, dash: char)
    requires !IsSpace(dash)
    requires forall i :: 0 <= i < |s| ==> !IsSpace(s[i])
    ensures CollapseSpaces(s, dash) == s
  {
    if |s| > 0 {
      CollapseWithoutSpaces(s[1..], dash);
      assert [s[0]] + s[1..] == s;
    }
  }

  /** Collapsing keeps a text free of ASCII capitals if the dash is not one. */
  lemma {:induction false} CollapseNoCapitals(s: string, dash: char)
    requires !IsSpace(dash) && !('A' <= dash <= 'Z')
    requires NoCapitals(s)
    ensures NoCapitals(CollapseSpaces(s, dash))
    decreases |s|
  {
    if |s| > 0 {
      var t := s[1..];
      NoCapitalsSuffix(s, 1);
      if IsSpace(s[0]) {
        NoCapitalsSuffix(t, |t| - |TrimStart(t)|);
        CollapseNoCapitals(TrimStart(t), dash);
        NoCapitalsCons(dash, CollapseSpaces(TrimStart(t), dash));
      } else {
        CollapseNoCapitals(t, dash);
        NoCapitalsCons(s[0], CollapseSpaces(t, dash));
      }
    }
  }

  /** No ASCII capital letter. */
  predicate NoCapitals(s: string)
  {
    forall i :: 0 <= i < |s| ==> !('A' <= s[i] <= 'Z')
  }

  lemma NoCapitalsCons(c: char, s: string)
    requires !('A' <= c <= 'Z') && NoCapitals(s)
    ensures NoCapitals([c] + s)
  {
    assert forall i :: 0 < i <= |s| ==> ([c] + s)[i] == s[i - 1];
  }

  lemma NoCapitalsSuffix(s: string, k: nat)
    requires NoCapitals(s) && k <= |s|
    ensures NoCapitals(s[k..])
  {
    forall i | 0 <= i < |s| - k
      ensures !('A' <= s[k..][i] <= 'Z')
    {
      assert s[k..][i] == s[k + i];
    }
  }

  /** Regrouping a concatenation of three strings. */
  lemma Associative(x: string, y: string, z: string)
    ensures x + (y + z) == (x + y) + z
  {
  }

  lemma Regroup4(a: string, b: string, c: string, d: string)
    ensures a + (b + (c + d)) == a + b + c + d
  {
  }

  /** Two lines with their separators in front of a text. */
  lemma RegroupLines(a: string, sep: string, b: string, c: string, j: string)
    ensures a + sep + (b + sep + (c + j)) == a + sep + b + sep + c + j
  {
  }

  /** The first part of a join is its prefix. */
  lemma JoinStartsWith(words: seq<string>, sep: string)
    requires |words| > 0
    ensures |Join(words, sep)| >= |words[0]| && Join(words, sep)[..|words[0]|] == words[0]
  {
  }

  /** No white space at all. */
  predicate NoSpace(s: string)
  {
    forall i :: 0 <= i < |s| ==> !IsSpace(s[i])
  }

  /** Words with the white space runs between them:
      `words[0] + gaps[0] + words[1] + … + words[|words| - 1]`. */
  function Interleave(words: seq<string>, gaps: seq<string>): string
    requires |gaps| + 1 == |words|
    decreases |gaps|
  {
    if |gaps| == 0 then words[0] else words[0] + gaps[0] + Interleave(words[1..], gaps[1..])
  }

  /** Non-empty words without white space, separated by non-empty runs of
      white space. */
  predicate SpacedWords(words: seq<string>, gaps: seq<string>)
  {
    && |gaps| + 1 == |words|
    && (forall k :: 0 <= k < |words| ==> words[k] != "" && NoSpace(words[k]))
    && (forall k :: 0 <= k < |gaps| ==> gaps[k] != "" && AllSpace(gaps[k]))
  }

  /** One `dash` for a non-empty run of white space, nothing for none. */
  function Marker(run: string, dash: char): string
  {
    if run == "" then "" else [dash]
  }

  /** The interleaving starts with the first word. */
  lemma {:induction false} InterleaveStart(words: seq<string>, gaps: seq<string>)
    requires SpacedWords(words, gaps)
    ensures |Interleave(words, gaps)| > 0 && Interleave(words, gaps)[0] == words[0][0]
  {
    assert words[0] != "";
  }

  /** White space in front of a text that does not start with white space is
      exactly what `TrimStart` removes. */
  lemma {:induction false} TrimStartSpaces(s: string, t: string)
    requires AllSpace(s)
    requires t == "" || !IsSpace(t[0])
    ensures TrimStart(s + t) == t
    decreases |s|
  {
    if |s| == 0 {
      assert s + t == t;
    } else {
      assert (s + t)[0] == s[0];
      assert (s + t)[1..] == s[1..] + t;
      TrimStartSpaces(s[1..], t);
    }
  }

  /** A run of white space in front of a text that does not start with white
      space becomes one `dash`. */
  lemma CollapseRun(s: string, t: string, dash: char)
    requires !IsSpace(dash)
    requires s != "" && AllSpace(s)
    requires t == "" || !IsSpace(t[0])
    ensures CollapseSpaces(s + t, dash) == [dash] + CollapseSpaces(t, dash)
  {
    assert (s + t)[0] == s[0];
    assert (s + t)[1..] == s[1..] + t;
    TrimStartSpaces(s[1..], t);
  }

  /** A text of white space only collapses to its marker. */
  lemma CollapseBlank(s: string, dash: char)
    requires !IsSpace(dash) && AllSpace(s)
    ensures CollapseSpaces(s, dash) == Marker(s, dash)
  {
    if s != "" {
      assert s + "" == s;
      CollapseRun(s, "", dash);
    }
  }

  /** Words separated by white space runs, with white space after them, come
      out separated by one `dash`, with one more `dash` for the trailing run. */
  lemma {:induction false} CollapseSpaced(words: seq<string>, gaps: seq<string>, trail: string, dash: char)
    requires !IsSpace(dash)
    requires SpacedWords(words, gaps) && AllSpace(trail)
    ensures CollapseSpaces(Interleave(words, gaps) + trail, dash) == Join(words, [dash]) + Marker(trail, dash)
    decreases |gaps|
  {
    if |gaps| == 0 {
      CollapseAppend(words[0], trail, dash);
      CollapseBlank(trail, dash);
    } else {
      var tail := SpacedTail(words, gaps, trail);
      CollapseWordRun(words[0], gaps[0], tail, dash);
      CollapseSpaced(words[1..], gaps[1..], trail, dash);
      JoinDashCons(words, dash, Marker(trail, dash));
    }
  }

  /** The text after the first word and the first gap. */
  lemma SpacedTail(words: seq<string>, gaps: seq<string>, trail: string) returns (tail: string)
    requires SpacedWords(words, gaps) && |gaps| > 0
    ensures SpacedWords(words[1..], gaps[1..])
    ensures tail == Interleave(words[1..], gaps[1..]) + trail
    ensures Interleave(words, gaps) + trail == words[0] + gaps[0] + tail
    ensures NoSpace(words[0]) && gaps[0] != "" && AllSpace(gaps[0])
    ensures !IsSpace(tail[0])
  {
    assert SpacedWords(words[1..], gaps[1..]);
    tail := Interleave(words[1..], gaps[1..]) + trail;
    InterleaveStart(words[1..], gaps[1..]);
    assert tail[0] == words[1][0];
  }

  /** A word, a run of white space and a text that starts with something
      else: the word, one `dash` and the collapsed text. */
  lemma CollapseWordRun(w: string, g: string, tail: string, dash: char)
    requires !IsSpace(dash) && NoSpace(w) && g != "" && AllSpace(g)
    requires tail == "" || !IsSpace(tail[0])
    ensures CollapseSpaces(w + g + tail, dash) == w + [dash] + CollapseSpaces(tail, dash)
  {
    assert w + g + tail == w + (g + tail);
    CollapseAppend(w, g + tail, dash);
    CollapseRun(g, tail, dash);
  }

  lemma JoinDashCons(words: seq<string>, dash: char, m: string)
    requires |words| >= 2
    ensures words[0] + [dash] + (Join(words[1..], [dash]) + m) == Join(words, [dash]) + m
  {
    JoinCons(words, [dash]);
  }

  /** `s.replace(/\s+/g, dash)` on words separated by runs of white space,
      with optional white space at either end: the words joined by one
      `dash`, with one more `dash` for each run at an end. */
  lemma CollapseSpacedText(lead: string, words: seq<string>, gaps: seq<string>, trail: string, dash: char)
    requires !IsSpace(dash)
    requires AllSpace(lead) && SpacedWords(words, gaps) && AllSpace(trail)
    ensures CollapseSpaces(lead + Interleave(words, gaps) + trail, dash)
      == Marker(lead, dash) + Join(words, [dash]) + Marker(trail, dash)
  {
    var body := Interleave(words, gaps) + trail;
    CollapseSpaced(words, gaps, trail, dash);
    assert lead + Interleave(words, gaps) + trail == lead + body;
    if lead == "" {
      assert lead + body == body;
    } else {
      InterleaveStart(words, gaps);
      assert body[0] == words[0][0];
      CollapseRun(lead, body, dash);
    }
  }

  /** Lower-casing keeps the first character apart. */
  lemma LowerTail(s: string)
    requires |s| > 0
    ensures ToLower(s)[0] == LowerChar(s[0]) && ToLower(s)[1..] == ToLower(s[1..])
  {
  }

  /** Lower-casing and dropping leading white space commute. */
  lemma {:induction false} TrimStartLower(s: string)
    ensures TrimStart(ToLower(s)) == ToLower(TrimStart(s))
    decreases |s|
  {
    if |s| > 0 {
      LowerTail(s);
      if IsSpace(s[0]) {
        TrimStartLower(s[1..]);
      }
    }
  }

  /** Lower-casing and collapsing white space commute when the dash is not a
      capital letter. */
  lemma {:induction false} CollapseLower(s: string, dash: char)
    requires !IsSpace(dash) && !('A' <= dash <= 'Z')
    ensures CollapseSpaces(ToLower(s), dash) == ToLower(CollapseSpaces(s, dash))
    decreases |s|
  {
    if |s| > 0 {
      LowerTail(s);
      if IsSpace(s[0]) {
        var t := TrimStart(s[1..]);
        TrimStartLower(s[1..]);
        CollapseLower(t, dash);
        ToLowerConcat([dash], CollapseSpaces(t, dash));
        LowerTail([dash]);
      } else {
        CollapseLower(s[1..], dash);
        ToLowerConcat([s[0]], CollapseSpaces(s[1..], dash));
        LowerTail([s[0]]);
      }
    }
  }

  /** A prefix without white space is copied unchanged. */
  lemma {:induction false} CollapseAppend(a: string, b: string, dash: char)
    requires !IsSpace(dash)
    requires forall i :: 0 <= i < |a| ==> !IsSpace(a[i])
    ensures CollapseSpaces(a + b, dash) == a + CollapseSpaces(b, dash)
  {
    if |a| > 0 {
      var ab := a + b;
      assert ab[0] == a[0] && !IsSpace(ab[0]);
      assert ab[1..] == a[1..] + b;
      CollapseAppend(a[1..], b, dash);
      assert a == [a[0]] + a[1..];
      calc {
        CollapseSpaces(ab, dash);
        [a[0]] + CollapseSpaces(a[1..] + b, dash);
        [a[0]] + (a[1..] + CollapseSpaces(b, dash));
        ([a[0]] + a[1..]) + CollapseSpaces(b, dash);
        a + CollapseSpaces(b, dash);
      }
    } else {
      assert a + b == b;
    }
  }

  /** A decimal digit character. */
  function Digit(d: nat): (c: char)
    requires d < 10
    ensures '0' <= c <= '9'
  {
    ('0' as int + d) as char
  }

  /** `String(n)` for a natural number: its decimal numeral. */
  function Decimal(n: nat): (s: string)
    ensures |s| >= 1
    ensures forall i :: 0 <= i < |s| ==> '0' <= s[i] <= '9'
  {
    if n < 10 then [Digit(n)] else Decimal(n / 10) + [Digit(n % 10)]
  }

  /** Reads a numeral back (each character taken as its distance from '0'). */
  function ParseDecimal(s: string): nat
  {
    if |s| == 0 then 0
    else
      var d := s[|s| - 1] as int - '0' as int;
      10 * ParseDecimal(s[..|s| - 1]) + (if 0 <= d < 10 then d else 0)
  }

  /** Reading a numeral back gives the number: `String` is injective on
      naturals, so distinct counters give distinct ids. */
  lemma {:induction false} ParseDecimalOfDecimal(n: nat)
    ensures ParseDecimal(Decimal(n)) == n
  {
    if n >= 10 {
      ParseDecimalOfDecimal(n / 10);
      var s := Decimal(n);
      assert s[..|s| - 1] == Decimal(n / 10);
    }
  }

  lemma DecimalInjective(m: nat, n: nat)
    requires m != n
    ensures Decimal(m) != Decimal(n)
  {
    ParseDecimalOfDecimal(m);
    ParseDecimalOfDecimal(n);
  }
}
