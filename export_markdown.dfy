/** The Markdown validation brief (src/utils/exportMarkdown.js): a header
    naming the venture, then one numbered section per assumption that sits in
    the "clueless" quadrant and has an approach chosen, each holding the
    generated prompt in a code fence; and the name of the downloaded file. */
module ExportMarkdown {
  import opened Domain
  import opened Strings
  import opened PromptEngine

  /** The assumptions the brief is about: in the clueless quadrant and with a
      (non-empty) approach selected. */
  predicate Qualifies(a: Assumption)
  {
    a.quadrant == Some("clueless") && TruthyOpt(a.selectedApproach)
  }

  /** `assumptions.filter(Qualifies)`: keeps exactly the qualifying ones, in
      their order. */
  function Clueless(l: seq<Assumption>): (r: seq<Assumption>)
    ensures |r| <= |l|
    ensures forall k :: 0 <= k < |r| ==> Qualifies(r[k])
  {
    if |l| == 0 then []
    else if Qualifies(l[0]) then [l[0]] + Clueless(l[1..])
    else Clueless(l[1..])
  }

  /** The filter keeps exactly the qualifying assumptions. */
  lemma {:induction false} CluelessMembers(l: seq<Assumption>)
    ensures forall x :: x in Clueless(l) <==> x in l && Qualifies(x)
  {
    if |l| > 0 {
      CluelessMembers(l[1..]);
      assert l == [l[0]] + l[1..];
    }
  }

  /** Filtering a concatenation filters each part and keeps their order. */
  lemma {:induction false} CluelessConcat(a: seq<Assumption>, b: seq<Assumption>)
    ensures Clueless(a + b) == Clueless(a) + Clueless(b)
  {
    if |a| == 0 {
      assert a + b == b;
    } else {
      assert (a + b)[0] == a[0];
      assert (a + b)[1..] == a[1..] + b;
      CluelessConcat(a[1..], b);
    }
  }

  lemma CluelessSnoc(l: seq<Assumption>, a: Assumption)
    requires Qualifies(a)
    ensures Clueless(l + [a]) == Clueless(l) + [a]
  {
    CluelessConcat(l, [a]);
    assert Clueless([a]) == [a];
  }

  /** The line under the title: the description and the stage (or "early"),
      or an empty line when there is no description. */
  function DescriptionLine(v: Venture): string
  {
    if Truthy(v.description) then "> " + v.description + " | Stage: " + OrOpt(v.stage, "early") else ""
  }

  const Attribution: string :=
    "_Generated with [KluMap.com](https://klumap.com)" + EmDash + "O-Ring Assumption Mapping by Morten Wagner_"

  /** The eight header lines around the title and the description line. */
  function HeaderFrame(title: string, description: string): seq<string>
  {
    [title, "", description, "", Attribution, "", "---", ""]
  }

  /** A line followed by an empty line. */
  function Para(line: string): string
  {
    line + "\n" + "\n"
  }

  /** The closing rule and the empty line after it. */
  function Rule(): string
  {
    "---" + "\n"
  }

  /** The header's text around the title and the description line. */
  function HeaderText(title: string, description: string): string
  {
    Para(title) + Para(description) + Para(Attribution) + Rule()
  }

  lemma HeaderFrameLayout(title: string, description: string)
    ensures Join(HeaderFrame(title, description), "\n") == HeaderText(title, description)
  {
    var r := ["---", ""];
    var q := [Attribution, ""] + r;
    var p := [description, ""] + q;
    assert HeaderFrame(title, description) == [title, ""] + p;
    JoinBlankAfter(title, p, "\n");
    JoinBlankAfter(description, q, "\n");
    JoinBlankAfter(Attribution, r, "\n");
    JoinBlankLast("---", "\n");
    Regroup4(Para(title), Para(description), Para(Attribution), Rule());
  }

  function Title(v: Venture): string
  {
    "# Validation Brief" + EmDash + Or(v.name, "My Venture")
  }

  /** The header: the eight lines joined by newlines (see HeaderIsJoin). */
  function Header(v: Venture): string
  {
    HeaderText(Title(v), DescriptionLine(v))
  }

  /** The header is the title, a blank line, the description line, a blank
      line, the attribution, a blank line and the rule, joined by newlines:
      every line ends with a newline. */
  lemma HeaderIsJoin(v: Venture)
    ensures Header(v) == Join(HeaderFrame(Title(v), DescriptionLine(v)), "\n")
  {
    HeaderFrameLayout(Title(v), DescriptionLine(v));
  }

  /** `approach?.name || 'N/A'`. */
  function ApproachName(cat: Catalog, id: string): (r: string)
    ensures id !in cat.approachById ==> r == "N/A"
    ensures id in cat.approachById && cat.approachById[id].name != "" ==> r == cat.approachById[id].name
    ensures id in cat.approachById && cat.approachById[id].name == "" ==> r == "N/A"
    ensures r != ""
  {
    if id in cat.approachById then Or(cat.approachById[id].name, "N/A") else "N/A"
  }

  /** The id of the selected approach; a brief only has sections for
      assumptions that have one. */
  function ChosenApproach(a: Assumption): string
  {
    if a.selectedApproach.Some? then a.selectedApproach.value else ""
  }

  /** The metadata line of a section. */
  function MetaLine(cat: Catalog, a: Assumption): string
  {
    "**Ring:** " + cat.rings.Label(a.ring) + " | **Approach:** " + ApproachName(cat, ChosenApproach(a))
    + " | **Style:** " + Or(a.promptStyle, "focused")
  }

  /** The prompt of a section: generated for the selected approach in the
      assumption's style, "focused" when it has none. */
  function SectionPrompt(cat: Catalog, a: Assumption, v: Venture): string
  {
    GeneratePrompt(cat, a, v, ChosenApproach(a), Or(a.promptStyle, "focused"))
  }

  /** The ten lines of a section around its heading, metadata line and
      prompt. */
  function SectionFrame(heading: string, meta: string, prompt: string): seq<string>
  {
    [heading, "", meta, "", "```", prompt, "```", "", "---", ""]
  }

  /** The prompt in a fenced code block, followed by an empty line. */
  function Fence(prompt: string): string
  {
    "```" + "\n" + prompt + "\n" + Para("```")
  }

  lemma JoinFence(prompt: string, rest: seq<string>)
    requires |rest| > 0
    ensures Join(["```", prompt, "```", ""] + rest, "\n") == Fence(prompt) + Join(rest, "\n")
  {
    JoinEnclosed("```", prompt, rest, "\n");
  }

  /** A section's text around its heading, metadata line and prompt. */
  function SectionText(heading: string, meta: string, prompt: string): string
  {
    Para(heading) + Para(meta) + Fence(prompt) + Rule()
  }

  lemma FrameLayout(heading: string, meta: string, prompt: string)
    ensures Join(SectionFrame(heading, meta, prompt), "\n") == SectionText(heading, meta, prompt)
  {
    var r := ["---", ""];
    var f := ["```", prompt, "```", ""] + r;
    var q := [meta, ""] + f;
    assert SectionFrame(heading, meta, prompt) == [heading, ""] + q;
    JoinBlankAfter(heading, q, "\n");
    JoinBlankAfter(meta, f, "\n");
    JoinFence(prompt, r);
    JoinBlankLast("---", "\n");
    Regroup4(Para(heading), Para(meta), Fence(prompt), Rule());
  }

  /** `## ${i + 1}. ${a.text}` */
  function Heading(a: Assumption, n: nat): string
  {
    "## " + Decimal(n) + ". " + a.text
  }

  /** Section number `n`: the ten lines of SectionFrame joined by newlines
      (see SectionIsJoin). */
  function Section(cat: Catalog, v: Venture, a: Assumption, n: nat): string
  {
    SectionText(Heading(a, n), MetaLine(cat, a), SectionPrompt(cat, a, v))
  }

  /** A section is its heading, the metadata line and the prompt inside a
      code fence, followed by a rule, joined by newlines; it ends with a
      newline, so that sections can be concatenated. */
  lemma SectionIsJoin(cat: Catalog, v: Venture, a: Assumption, n: nat)
    ensures Section(cat, v, a, n) ==
      Join(SectionFrame(Heading(a, n), MetaLine(cat, a), SectionPrompt(cat, a, v)), "\n")
  {
    FrameLayout(Heading(a, n), MetaLine(cat, a), SectionPrompt(cat, a, v));
  }

  /** `l.map((x, i) => f(x, start + i))`. */
  function Numbered(f: (Assumption, nat) -> string, l: seq<Assumption>, start: nat): (r: seq<string>)
    ensures |r| == |l|
  {
    if |l| == 0 then [] else [f(l[0], start)] + Numbered(f, l[1..], start + 1)
  }

  /** The `k`-th element is made from the `k`-th assumption and the number
      `start + k`. */
  lemma {:induction false} NumberedAt(f: (Assumption, nat) -> string, l: seq<Assumption>, start: nat, k: nat)
    requires k < |l|
    ensures Numbered(f, l, start)[k] == f(l[k], start + k)
  {
    if k > 0 {
      NumberedAt(f, l[1..], start + 1, k - 1);
    }
  }

  /** Mapping a list with one more assumption at the end maps the others and
      adds one element, numbered after them. */
  lemma {:induction false} NumberedSnoc(f: (Assumption, nat) -> string, l: seq<Assumption>, a: Assumption, start: nat)
    ensures Numbered(f, l + [a], start) == Numbered(f, l, start) + [f(a, start + |l|)]
  {
    if |l| == 0 {
      assert l + [a] == [a];
    } else {
      assert (l + [a])[0] == l[0];
      assert (l + [a])[1..] == l[1..] + [a];
      NumberedSnoc(f, l[1..], a, start + 1);
    }
  }

  function SectionOf(cat: Catalog, v: Venture): (Assumption, nat) -> string
  {
    (a: Assumption, n: nat) => Section(cat, v, a, n)
  }

  /** `clueless.map((a, i) => section)`, numbering from `start`. */
  function Sections(cat: Catalog, v: Venture, l: seq<Assumption>, start: nat): seq<string>
  {
    Numbered(SectionOf(cat, v), l, start)
  }

  /** The brief from its header and its sections: nothing at all when
      there are no sections. */
  function Brief(header: string, sections: seq<string>): string
  {
    if |sections| == 0 then "" else header + Join(sections, "")
  }

  /** `exportMarkdown({ assumptions, venture })`. */
  function Export(cat: Catalog, assumptions: seq<Assumption>, v: Venture): (r: string)
    ensures Clueless(assumptions) == [] ==> r == ""
    ensures Clueless(assumptions) != [] ==> r == Header(v) + Join(Sections(cat, v, Clueless(assumptions), 1), "")
  {
    Brief(Header(v), Sections(cat, v, Clueless(assumptions), 1))
  }

  /** The brief is empty exactly when no assumption qualifies; otherwise it
      starts with the header. */
  lemma ExportEmptyIff(cat: Catalog, assumptions: seq<Assumption>, v: Venture)
    ensures Export(cat, assumptions, v) == "" <==> forall a :: a in assumptions ==> !Qualifies(a)
    ensures Export(cat, assumptions, v) != "" ==> Export(cat, assumptions, v)[..|Header(v)|] == Header(v)
  {
    var c := Clueless(assumptions);
    CluelessMembers(assumptions);
    if c != [] {
      assert c[0] in c;
    }
  }

  /** Section `k` of the brief is numbered `k + 1` and is about the `k`-th
      qualifying assumption. */
  lemma SectionNumbering(cat: Catalog, assumptions: seq<Assumption>, v: Venture, k: nat)
    requires k < |Clueless(assumptions)|
    ensures Sections(cat, v, Clueless(assumptions), 1)[k] == Section(cat, v, Clueless(assumptions)[k], k + 1)
  {
    NumberedAt(SectionOf(cat, v), Clueless(assumptions), 1, k);
  }

  /** Section number `n` starts with its heading `## n. text`. */
  lemma SectionHeading(cat: Catalog, v: Venture, a: Assumption, n: nat)
    ensures var heading := "## " + Decimal(n) + ". " + a.text;
      |heading| <= |Section(cat, v, a, n)| && Section(cat, v, a, n)[..|heading|] == heading
  {
    HeadingFirst(Heading(a, n), MetaLine(cat, a), SectionPrompt(cat, a, v));
  }

  /** A section starts with its heading. */
  lemma HeadingFirst(heading: string, meta: string, prompt: string)
    ensures SectionText(heading, meta, prompt)[..|heading|] == heading
  {
    var rest := Para(meta) + Fence(prompt) + Rule();
    Regroup4(Para(heading), Para(meta), Fence(prompt), Rule());
    assert SectionText(heading, meta, prompt) == heading + ("\n" + "\n" + rest);
  }

  /** Joining with the empty separator is concatenation. */
  lemma {:induction false} JoinEmptySnoc(ss: seq<string>, w: string)
    ensures Join(ss + [w], "") == Join(ss, "") + w
  {
    if |ss| == 0 {
      assert ss + [w] == [w];
    } else {
      JoinSnoc(ss, w, "");
    }
  }

  /** One more section adds its text at the end of the brief; the first
      one also brings the header. */
  lemma BriefSnoc(header: string, ss: seq<string>, w: string)
    ensures Brief(header, ss + [w]) == if ss == [] then header + w else Brief(header, ss) + w
  {
    JoinEmptySnoc(ss, w);
    if ss == [] {
      assert Join(ss, "") == "";
    } else {
      Associative(header, Join(ss, ""), w);
    }
  }

  lemma BriefNumberedSnoc(header: string, f: (Assumption, nat) -> string, l: seq<Assumption>, a: Assumption)
    ensures Brief(header, Numbered(f, l + [a], 1)) ==
      if l == [] then header + f(a, 1) else Brief(header, Numbered(f, l, 1)) + f(a, |l| + 1)
  {
    NumberedSnoc(f, l, a, 1);
    BriefSnoc(header, Numbered(f, l, 1), f(a, |l| + 1));
  }

  /** Adding one more qualifying assumption at the end of the list appends
      one section, numbered one past the others, and changes nothing before
      it; the first one also brings the header. */
  lemma ExportSnoc(cat: Catalog, assumptions: seq<Assumption>, v: Venture, a: Assumption)
    requires Qualifies(a)
    ensures |Clueless(assumptions)| == 0 ==>
      Export(cat, assumptions + [a], v) == Header(v) + Section(cat, v, a, 1)
    ensures |Clueless(assumptions)| > 0 ==>
      Export(cat, assumptions + [a], v) == Export(cat, assumptions, v) + Section(cat, v, a, |Clueless(assumptions)| + 1)
  {
    CluelessSnoc(assumptions, a);
    BriefNumberedSnoc(Header(v), SectionOf(cat, v), Clueless(assumptions), a);
  }

  // ---------------------------------------------------------------------
  // The file name

  /** `(venture.name || 'venture').toLowerCase().replace(/\s+/g, '-')`. */
  function Slug(name: string): (r: string)
    ensures forall i :: 0 <= i < |r| ==> !IsSpace(r[i]) && !('A' <= r[i] <= 'Z')
    ensures r != ""
  {
    var lower := ToLower(Or(name, "venture"));
    CollapseNoCapitals(lower, '-');
    CollapseSpaces(lower, '-')
  }

  /** The downloaded file's name. */
  function FileName(v: Venture): string
  {
    "validation-brief-" + Slug(v.name) + ".md"
  }

  /** A name of words separated by runs of white space, possibly with white
      space at either end, becomes the lower-cased words joined by single
      dashes, with one dash for the run at each end. */
  lemma SlugOfSpacedWords(lead: string, words: seq<string>, gaps: seq<string>, trail: string)
    requires AllSpace(lead) && SpacedWords(words, gaps) && AllSpace(trail)
    ensures Slug(lead + Interleave(words, gaps) + trail)
      == Marker(lead, '-') + Join(ToLowerAll(words), "-") + Marker(trail, '-')
  {
    var name := lead + Interleave(words, gaps) + trail;
    InterleaveStart(words, gaps);
    assert name[|lead|] == Interleave(words, gaps)[0];
    CollapseLower(name, '-');
    CollapseSpacedText(lead, words, gaps, trail, '-');
    var m1, m2 := Marker(lead, '-'), Marker(trail, '-');
    ToLowerConcat(m1 + Join(words, "-"), m2);
    ToLowerConcat(m1, Join(words, "-"));
    ToLowerJoin(words, "-");
    LowerDash(m1);
    LowerDash(m2);
    LowerDash("-");
  }

  lemma LowerDash(m: string)
    requires m == "" || m == "-"
    ensures ToLower(m) == m
  {
  }

  /** An empty name falls back to "venture"; a name of white space only
      becomes a single dash. */
  lemma SlugOfBlankName(name: string)
    ensures name == "" ==> Slug(name) == "venture"
    ensures name != "" && AllSpace(name) ==> Slug(name) == "-"
  {
    if name == "" {
      SlugOfEmptyName();
    } else if AllSpace(name) {
      SlugOfSpaces(name);
    }
  }

  /** The placeholder is already a slug: lower case, no whitespace. */
  lemma SlugOfEmptyName()
    ensures Slug("") == "venture"
  {
    var v := "venture";
    assert LowerLetters(v);
    SlugOfLowerWord(v);
  }

  lemma SlugOfLowerWord(w: string)
    requires w != "" && LowerLetters(w)
    ensures Slug(w) == w
  {
    LowerOfNoCapitals(w);
    CollapseWithoutSpaces(w, '-');
  }


  lemma SlugOfSpaces(name: string)
    requires name != "" && AllSpace(name)
    ensures Slug(name) == "-"
  {
    var lower := ToLower(name);
    assert AllSpace(lower);
    CollapseBlank(lower, '-');
  }

}
