/** The prompt generator (src/utils/promptEngine.js): looks up an approach and
    a style variant, and joins six fixed-order sections with blank lines. The
    approach catalogue and the ring labels are data files outside the core:
    they are arguments here. */
module PromptEngine {
  import opened Domain
  import opened Strings

  /** A validation approach: its display name and one template per style. */
  datatype Approach = Approach(name: string, promptVariants: map<string, string>)

  /** The display label of each ring. */
  datatype RingLabels = RingLabels(opportunity: string, offering: string, operation: string)
  {
    function Label(r: Ring): string
    {
      match r
      case Opportunity => opportunity
      case Offering => offering
      case Operation => operation
    }
  }

  /** The static catalogues the generator reads. */
  datatype Catalog = Catalog(approachById: map<string, Approach>, rings: RingLabels)

  /** `RING_CONTEXT`: what each ring's assumptions are about. */
  function RingContext(r: Ring): string
  {
    match r
    case Opportunity => "whether a real market opportunity exists"
    case Offering => "whether our solution effectively addresses the need"
    case Operation => "whether we can feasibly build and deliver this"
  }

  const EmDash: string := " \U{2014} "

  const EvidenceStatus: string :=
    "Evidence status: This assumption is in my \"Clueless Corner\"" + EmDash
    + "I consider it highly important to our success, but I have little to no evidence for it."

  const ConstraintsLine: string := "Constraints: I want to test this quickly and with minimal budget."

  const KillSignalLine: string :=
    "What would a \"kill signal\" look like" + EmDash
    + "what evidence would tell me this assumption is wrong and I should pivot?"

  /** The placeholder the templates use for the assumption text. */
  const Placeholder: string := "{{assumption}}"

  // ---------------------------------------------------------------------
  // `template.replace(/\{\{assumption\}\}/g, text)`

  predicate MatchAt(t: string, i: nat)
  {
    i + |Placeholder| <= |t| && t[i..i + |Placeholder|] == Placeholder
  }

  /** GetSubstitution (ECMA-262, section 22.1.3.19.1) for a match of the
      placeholder at `pos` in `t`, with no capture groups: `$$` is `$`, `$&` is
      the match, `` $` `` the text before it, `$'` the text after it; every other
      `$` stands for itself. */
  function Substitution(repl: string, t: string, pos: nat): string
    requires pos + |Placeholder| <= |t|
    decreases |repl|
  {
    if |repl| == 0 then ""
    else if repl[0] == '$' && |repl| >= 2 && repl[1] == '$' then "$" + Substitution(repl[2..], t, pos)
    else if repl[0] == '$' && |repl| >= 2 && repl[1] == '&' then Placeholder + Substitution(repl[2..], t, pos)
    else if repl[0] == '$' && |repl| >= 2 && repl[1] == '`' then t[..pos] + Substitution(repl[2..], t, pos)
    else if repl[0] == '$' && |repl| >= 2 && repl[1] == '\'' then t[pos + |Placeholder|..] + Substitution(repl[2..], t, pos)
    else [repl[0]] + Substitution(repl[1..], t, pos)
  }

  /** The global replacement scanning `t` from index `i`: matches are taken
      left to right and do not overlap, and the scan resumes after each
      match, never inside the inserted text. */
  function ReplaceFrom(t: string, text: string, i: nat): string
    requires i <= |t|
    decreases |t| - i
  {
    if i == |t| then ""
    else if MatchAt(t, i) then Substitution(text, t, i) + ReplaceFrom(t, text, i + |Placeholder|)
    else [t[i]] + ReplaceFrom(t, text, i + 1)
  }

  function ReplacePlaceholder(t: string, text: string): string
  {
    ReplaceFrom(t, text, 0)
  }

  /** Reference definition: replace every placeholder by the literal text. */
  function LiteralReplace(t: string, text: string): string
  {
    if |t| == 0 then ""
    else if |Placeholder| <= |t| && t[..|Placeholder|] == Placeholder then text + LiteralReplace(t[|Placeholder|..], text)
    else [t[0]] + LiteralReplace(t[1..], text)
  }

  /** A replacement text without `$` is inserted literally. */
  lemma {:induction false} SubstitutionLiteral(repl: string, t: string, pos: nat)
    requires pos + |Placeholder| <= |t|
    requires '$' !in repl
    ensures Substitution(repl, t, pos) == repl
    decreases |repl|
  {
    if |repl| > 0 {
      assert repl[0] != '$';
      SubstitutionLiteral(repl[1..], t, pos);
      assert repl == [repl[0]] + repl[1..];
    }
  }

  lemma {:induction false} ReplaceFromLiteral(t: string, text: string, i: nat)
    requires i <= |t|
    requires '$' !in text
    ensures ReplaceFrom(t, text, i) == LiteralReplace(t[i..], text)
    decreases |t| - i
  {
    if i < |t| {
      var u := t[i..];
      if MatchAt(t, i) {
        assert u[..|Placeholder|] == t[i..i + |Placeholder|];
        assert u[|Placeholder|..] == t[i + |Placeholder|..];
        SubstitutionLiteral(text, t, i);
        ReplaceFromLiteral(t, text, i + |Placeholder|);
      } else {
        assert !(|Placeholder| <= |u| && u[..|Placeholder|] == Placeholder) by {
          if |Placeholder| <= |u| { assert u[..|Placeholder|] == t[i..i + |Placeholder|]; }
        }
        assert u[1..] == t[i + 1..];
        ReplaceFromLiteral(t, text, i + 1);
      }
    }
  }

  /** When the assumption text holds no `$`, the replacement is the literal
      one. */
  lemma ReplaceIsLiteral(t: string, text: string)
    requires '$' !in text
    ensures ReplacePlaceholder(t, text) == LiteralReplace(t, text)
  {
    ReplaceFromLiteral(t, text, 0);
    assert t[0..] == t;
  }

  /** A template without placeholder comes back unchanged. */
  lemma {:induction false} LiteralReplaceNoMatch(t: string, text: string)
    requires forall i :: 0 <= i <= |t| ==> !MatchAt(t, i)
    ensures LiteralReplace(t, text) == t
    decreases |t|
  {
    if |t| > 0 {
      assert !MatchAt(t, 0);
      assert |Placeholder| <= |t| ==> t[..|Placeholder|] == t[0..|Placeholder|];
      forall i | 0 <= i <= |t[1..]| ensures !MatchAt(t[1..], i) {
        assert !MatchAt(t, i + 1);
        if i + |Placeholder| <= |t[1..]| {
          assert t[1..][i..i + |Placeholder|] == t[i + 1..i + 1 + |Placeholder|];
        }
      }
      LiteralReplaceNoMatch(t[1..], text);
      assert t == [t[0]] + t[1..];
    }
  }

  /** One pass: the first placeholder of `a + Placeholder + b` becomes the
      text, which is not scanned again, and the scan resumes in `b`. With
      `text == Placeholder` the result keeps the placeholder: nothing is
      expanded twice. */
  lemma {:induction false} LiteralReplaceFirst(a: string, b: string, text: string)
    requires forall i :: 0 <= i < |a| ==> !MatchAt(a + Placeholder + b, i)
    ensures LiteralReplace(a + Placeholder + b, text) == a + text + LiteralReplace(b, text)
    decreases |a|
  {
    if |a| == 0 {
      LiteralReplaceAtStart(b, text);
      assert a + Placeholder + b == Placeholder + b;
    } else {
      var t := a + Placeholder + b;
      NoMatchShift(a, b);
      LiteralReplaceFirst(a[1..], b, text);
      LiteralReplaceSkip(t, text);
      ConsRegroup(a, LiteralReplace(t, text), LiteralReplace(t[1..], text), text, LiteralReplace(b, text));
    }
  }

  lemma LiteralReplaceAtStart(b: string, text: string)
    ensures LiteralReplace(Placeholder + b, text) == text + LiteralReplace(b, text)
  {
    var t := Placeholder + b;
    assert t[..|Placeholder|] == Placeholder;
    assert t[|Placeholder|..] == b;
  }

  lemma ConsRegroup(a: string, whole: string, rest: string, x: string, y: string)
    requires |a| > 0 && whole == [a[0]] + rest && rest == a[1..] + x + y
    ensures whole == a + x + y
  {
    assert a == [a[0]] + a[1..];
  }

  /** Where the placeholder does not start, one character is copied. */
  lemma LiteralReplaceSkip(t: string, text: string)
    requires |t| > 0 && !MatchAt(t, 0)
    ensures LiteralReplace(t, text) == [t[0]] + LiteralReplace(t[1..], text)
  {
    assert |Placeholder| <= |t| ==> t[..|Placeholder|] == t[0..|Placeholder|];
  }

  /** No match before the placeholder in `a + Placeholder + b` means none in
      the same text without its first character. */
  lemma NoMatchShift(a: string, b: string)
    requires |a| > 0
    requires forall i :: 0 <= i < |a| ==> !MatchAt(a + Placeholder + b, i)
    ensures forall i :: 0 <= i < |a[1..]| ==> !MatchAt(a[1..] + Placeholder + b, i)
    ensures (a + Placeholder + b)[1..] == a[1..] + Placeholder + b
    ensures !MatchAt(a + Placeholder + b, 0)
  {
    var t := a + Placeholder + b;
    assert t[1..] == a[1..] + Placeholder + b;
    forall i | 0 <= i < |a[1..]| ensures !MatchAt(a[1..] + Placeholder + b, i) {
      assert !MatchAt(t, i + 1);
      if i + 1 + |Placeholder| <= |t| {
        assert t[i + 1..i + 1 + |Placeholder|] == t[1..][i..i + |Placeholder|];
      }
    }
  }

  // ---------------------------------------------------------------------
  // The prompt

  /** `Context: I'm working on …. We're at the … stage.` */
  function ContextLine(v: Venture): string
  {
    "Context: I'm working on " + Or(v.name, "my venture")
    + (if Truthy(v.description) then EmDash + v.description else "")
    + ". We're at the " + OrOpt(v.stage, "early") + " stage."
  }

  const AssumptionLead: string := "Assumption: I believe that "

  /** `Assumption: I believe that …. This is an … assumption — it relates to ….` */
  function AssumptionLine(a: Assumption, rings: RingLabels): string
  {
    AssumptionLead + a.text + ". This is an " + rings.Label(a.ring)
    + " assumption" + EmDash + "it relates to " + RingContext(a.ring) + "."
  }

  /** The eleven lines of a prompt: six sections with empty lines between. */
  function PromptLines(a: Assumption, v: Venture, template: string, rings: RingLabels): seq<string>
  {
    [ContextLine(v), "", AssumptionLine(a, rings), "", EvidenceStatus, "",
     ReplacePlaceholder(template, a.text), "", ConstraintsLine, "", KillSignalLine]
  }

  /** `generatePrompt({ assumption, venture, approachId, style })`: the empty
      string exactly when the approach or its variant for the style is
      missing, and otherwise the eleven lines joined by newlines. */
  function GeneratePrompt(cat: Catalog, a: Assumption, v: Venture, approachId: string, style: string): (r: string)
    ensures approachId !in cat.approachById ==> r == ""
    ensures approachId in cat.approachById && style !in cat.approachById[approachId].promptVariants ==> r == ""
    ensures approachId in cat.approachById && style in cat.approachById[approachId].promptVariants ==>
      r == Join(PromptLines(a, v, cat.approachById[approachId].promptVariants[style], cat.rings), "\n")
  {
    if approachId !in cat.approachById then ""
    else
      var approach := cat.approachById[approachId];
      if style !in approach.promptVariants then ""
      else Join(PromptLines(a, v, approach.promptVariants[style], cat.rings), "\n")
  }

  /** The sections with an empty line between each two. */
  function WithBlankLines(sections: seq<string>): (r: seq<string>)
    ensures |sections| > 0 ==> |r| == 2 * |sections| - 1
  {
    if |sections| <= 1 then sections else [sections[0], ""] + WithBlankLines(sections[1..])
  }

  /** Joining the lines with newlines is joining the sections with one blank
      line between each two. */
  lemma {:induction false} JoinWithBlankLines(sections: seq<string>)
    ensures Join(WithBlankLines(sections), "\n") == Join(sections, "\n\n")
  {
    if |sections| >= 2 {
      var rest := WithBlankLines(sections[1..]);
      JoinWithBlankLines(sections[1..]);
      var l := [sections[0], ""] + rest;
      assert l[1..] == [""] + rest;
      assert ([""] + rest)[1..] == rest;
      JoinCons(l, "\n");
      JoinCons([""] + rest, "\n");
    }
  }

  /** The six sections of a prompt, in order. */
  function PromptSections(a: Assumption, v: Venture, template: string, rings: RingLabels): seq<string>
  {
    [ContextLine(v), AssumptionLine(a, rings), EvidenceStatus,
     ReplacePlaceholder(template, a.text), ConstraintsLine, KillSignalLine]
  }

  /** The result is empty exactly when the approach or the style variant is
      missing. */
  lemma PromptEmptyIff(cat: Catalog, a: Assumption, v: Venture, approachId: string, style: string)
    ensures GeneratePrompt(cat, a, v, approachId, style) == ""
      <==> approachId !in cat.approachById || style !in cat.approachById[approachId].promptVariants
  {
    if approachId in cat.approachById && style in cat.approachById[approachId].promptVariants {
      var l := PromptLines(a, v, cat.approachById[approachId].promptVariants[style], cat.rings);
      JoinCons(l, "\n");
      assert |Join(l, "\n")| >= |ContextLine(v)| > 0;
    }
  }

  /** A non-empty prompt is its six sections, in this order, with one blank
      line between each two: the context line, the assumption line, the
      evidence-status sentence, the template with the assumption text
      substituted, the constraint sentence and the kill-signal question. */
  lemma PromptLayout(cat: Catalog, a: Assumption, v: Venture, approachId: string, style: string)
    requires approachId in cat.approachById && style in cat.approachById[approachId].promptVariants
    ensures GeneratePrompt(cat, a, v, approachId, style) ==
      Join(PromptSections(a, v, cat.approachById[approachId].promptVariants[style], cat.rings), "\n\n")
  {
    var t := cat.approachById[approachId].promptVariants[style];
    SixSections(ContextLine(v), AssumptionLine(a, cat.rings), EvidenceStatus,
      ReplacePlaceholder(t, a.text), ConstraintsLine, KillSignalLine);
  }

  /** Six sections with blank lines between them, one line each. */
  lemma SixSections(s0: string, s1: string, s2: string, s3: string, s4: string, s5: string)
    ensures Join([s0, "", s1, "", s2, "", s3, "", s4, "", s5], "\n") == Join([s0, s1, s2, s3, s4, s5], "\n\n")
  {
    var sections := [s0, s1, s2, s3, s4, s5];
    assert sections[5..] == [s5];
    assert sections[4..][1..] == sections[5..];
    assert WithBlankLines(sections[4..]) == [s4, "", s5];
    assert sections[3..][1..] == sections[4..];
    assert WithBlankLines(sections[3..]) == [s3, "", s4, "", s5];
    assert sections[2..][1..] == sections[3..];
    assert WithBlankLines(sections[2..]) == [s2, "", s3, "", s4, "", s5];
    assert sections[1..][1..] == sections[2..];
    assert WithBlankLines(sections[1..]) == [s1, "", s2, "", s3, "", s4, "", s5];
    assert WithBlankLines(sections) == [s0, "", s1, "", s2, "", s3, "", s4, "", s5];
    JoinWithBlankLines(sections);
  }

  /** The context line names the venture (or "my venture"), adds " — " and
      the description only when there is one, and the stage (or "early"). */
  lemma ContextLineFallbacks(v: Venture)
    ensures ContextLine(v) ==
      "Context: I'm working on " + (if v.name == "" then "my venture" else v.name)
      + (if v.description == "" then "" else " \U{2014} " + v.description)
      + ". We're at the " + (if v.stage.None? || v.stage.value == "" then "early" else v.stage.value) + " stage."
  {
  }

  /** The assumption line holds the literal assumption text right after its
      lead-in, the ring's label right after ". This is an ", and the ring's
      context phrase right before the final full stop. */
  lemma AssumptionLineContents(a: Assumption, rings: RingLabels)
    ensures var line := AssumptionLine(a, rings);
      var k := |AssumptionLead| + |a.text| + |". This is an "|;
      && line[|AssumptionLead|..|AssumptionLead| + |a.text|] == a.text
      && line[k..k + |rings.Label(a.ring)|] == rings.Label(a.ring)
      && line[|line| - 1 - |RingContext(a.ring)|..|line| - 1] == RingContext(a.ring)
  {
    LineSegments(AssumptionLead, a.text, ". This is an ", rings.Label(a.ring),
      " assumption", EmDash, "it relates to ", RingContext(a.ring), ".");
  }

  /** Where the second, fourth and eighth parts sit in a nine-part
      concatenation shaped like the assumption line. */
  lemma LineSegments(p: string, x: string, q: string, y: string,
                     r1: string, r2: string, r3: string, z: string, t: string)
    ensures var line := p + x + q + y + r1 + r2 + r3 + z + t;
      var k := |p| + |x| + |q|;
      && line[|p|..|p| + |x|] == x
      && line[k..k + |y|] == y
      && line[|line| - |t| - |z|..|line| - |t|] == z
  {
    var px := p + x;
    var pxqy := px + q + y;
    var head := pxqy + r1 + r2 + r3;
    var line := head + z + t;
    PrefixSlice(px, q + y, |p|, |px|);
    PrefixSlice(pxqy, r1 + r2 + r3 + z + t, |p|, |px|);
    PrefixSlice(pxqy, r1 + r2 + r3 + z + t, |px| + |q|, |pxqy|);
    assert line == pxqy + (r1 + r2 + r3 + z + t);
    PrefixSlice(head + z, t, |head|, |head| + |z|);
  }

  /** A slice inside the first part of a concatenation. */
  lemma PrefixSlice(u: string, v: string, i: nat, j: nat)
    requires i <= j <= |u|
    ensures (u + v)[i..j] == u[i..j]
  {
  }

}
