/** utils/prompts.rs: a prompt is a template with every `{question}` replaced by the trimmed
    question and then every `{correct_answer}` replaced by the trimmed answer. The templates are
    read once from a JSON file named by the environment, so here they are a parameter. */
module Prompts {

  // ---- str::trim ----

  /** Rust's `char::is_whitespace`: the Unicode `White_Space` property. */
  predicate IsWhitespace(c: char) {
    || ('\t' <= c <= '\r') || c == ' ' || c == '\U{85}' || c == '\U{A0}' || c == '\U{1680}'
    || ('\U{2000}' <= c <= '\U{200A}') || c == '\U{2028}' || c == '\U{2029}' || c == '\U{202F}'
    || c == '\U{205F}' || c == '\U{3000}'
  }

  predicate AllWhitespace(s: string) {
    forall i :: 0 <= i < |s| ==> IsWhitespace(s[i])
  }

  function TrimStart(s: string): string {
    if s != [] && IsWhitespace(s[0]) then TrimStart(s[1..]) else s
  }

  function TrimEnd(s: string): string {
    if s != [] && IsWhitespace(s[|s| - 1]) then TrimEnd(s[..|s| - 1]) else s
  }

  /** `str::trim`. */
  function Trim(s: string): string {
    TrimEnd(TrimStart(s))
  }

  /** `TrimStart` drops a whitespace prefix and stops at the first other character. */
  lemma {:induction false} TrimStartSpec(s: string) returns (i: int)
    ensures 0 <= i <= |s| && TrimStart(s) == s[i..] && AllWhitespace(s[..i])
    ensures i < |s| ==> !IsWhitespace(s[i])
  {
    if s != [] && IsWhitespace(s[0]) {
      var j := TrimStartSpec(s[1..]);
      i := j + 1;
      assert s[1..][j..] == s[i..];
      assert forall k :: 1 <= k < i ==> s[k] == s[1..][..j][k - 1];
    } else {
      i := 0;
    }
  }

  /** `TrimEnd` drops a whitespace suffix and stops at the last other character. */
  lemma {:induction false} TrimEndSpec(s: string) returns (j: int)
    ensures 0 <= j <= |s| && TrimEnd(s) == s[..j] && AllWhitespace(s[j..])
    ensures j > 0 ==> !IsWhitespace(s[j - 1])
  {
    if s != [] && IsWhitespace(s[|s| - 1]) {
      var n := |s| - 1;
      j := TrimEndSpec(s[..n]);
      assert s[..n][..j] == s[..j];
      assert forall k :: j <= k < n ==> s[k] == s[..n][j..][k - j];
    } else {
      j := |s|;
    }
  }

  /** `trim` keeps exactly the stretch from the first to the last non-whitespace character:
      the text around it is whitespace, and it neither starts nor ends with whitespace. */
  lemma TrimSpec(s: string) returns (i: int, j: int)
    ensures 0 <= i <= j <= |s| && Trim(s) == s[i..j]
    ensures AllWhitespace(s[..i]) && AllWhitespace(s[j..])
    ensures Trim(s) != [] ==> !IsWhitespace(Trim(s)[0]) && !IsWhitespace(Trim(s)[|Trim(s)| - 1])
  {
    i := TrimStartSpec(s);
    var t := s[i..];
    var k := TrimEndSpec(t);
    j := i + k;
    assert t[..k] == s[i..j];
    assert forall m :: j <= m < |s| ==> s[m] == t[k..][m - j];
    if k > 0 {
      assert Trim(s)[0] == s[i];
      assert Trim(s)[k - 1] == t[k - 1];
    }
  }

  lemma {:induction false} TrimStartSkips(ws: string, s: string)
    requires AllWhitespace(ws)
    ensures TrimStart(ws + s) == TrimStart(s)
    decreases |ws|
  {
    if ws != [] {
      assert (ws + s)[1..] == ws[1..] + s;
      TrimStartSkips(ws[1..], s);
    } else {
      assert ws + s == s;
    }
  }

  lemma {:induction false} TrimEndSkips(s: string, ws: string)
    requires AllWhitespace(ws)
    ensures TrimEnd(s + ws) == TrimEnd(s)
    decreases |ws|
  {
    if ws != [] {
      var n := |ws| - 1;
      assert (s + ws)[..|s + ws| - 1] == s + ws[..n];
      TrimEndSkips(s, ws[..n]);
    } else {
      assert s + ws == s;
    }
  }

  /** Trailing whitespace passes through `TrimStart` untouched, unless nothing else is left. */
  lemma {:induction false} TrimStartAppend(s: string, ws: string)
    requires AllWhitespace(ws)
    ensures TrimStart(s + ws) == if TrimStart(s) == [] then [] else TrimStart(s) + ws
    decreases |s|
  {
    if s == [] {
      assert s + ws == ws + [];
      TrimStartSkips(ws, []);
    } else if IsWhitespace(s[0]) {
      assert (s + ws)[1..] == s[1..] + ws;
      TrimStartAppend(s[1..], ws);
    }
  }

  /** Whitespace added around a string does not change its trimmed form. */
  lemma TrimIgnoresPadding(ws1: string, s: string, ws2: string)
    requires AllWhitespace(ws1) && AllWhitespace(ws2)
    ensures Trim(ws1 + s + ws2) == Trim(s)
  {
    assert ws1 + s + ws2 == ws1 + (s + ws2);
    TrimStartSkips(ws1, s + ws2);
    TrimStartAppend(s, ws2);
    if TrimStart(s) != [] {
      TrimEndSkips(TrimStart(s), ws2);
    }
  }

  /** Trimming twice is trimming once. */
  lemma TrimIdempotent(s: string)
    ensures Trim(Trim(s)) == Trim(s)
  {
    var i, j := TrimSpec(s);
    var t := Trim(s);
    if t != [] {
      assert TrimStart(t) == t;
      assert TrimEnd(t) == t;
    }
  }

  // ---- str::replace ----

  /** `pat` occurs in `s` at position `i`. */
  predicate OccursAt(s: string, pat: string, i: int) {
    0 <= i && i + |pat| <= |s| && s[i..i + |pat|] == pat
  }

  /** `str::replace` with a non-empty pattern: scanning left to right, every occurrence that does
      not overlap an earlier replaced one is replaced by `rep`; replaced text is not rescanned. */
  function Replace(s: string, pat: string, rep: string): string
    requires pat != []
    decreases |s|
  {
    if |s| < |pat| then s
    else if s[..|pat|] == pat then rep + Replace(s[|pat|..], pat, rep)
    else [s[0]] + Replace(s[1..], pat, rep)
  }

  /** Text with no occurrence of the pattern is returned unchanged. */
  lemma {:induction false} ReplaceAbsent(s: string, pat: string, rep: string)
    requires pat != []
    requires forall i :: !OccursAt(s, pat, i)
    ensures Replace(s, pat, rep) == s
    decreases |s|
  {
    if |s| >= |pat| {
      assert !OccursAt(s, pat, 0);
      forall i ensures !OccursAt(s[1..], pat, i) {
        if OccursAt(s[1..], pat, i) {
          assert s[1..][i..i + |pat|] == s[i + 1..i + 1 + |pat|];
          assert OccursAt(s, pat, i + 1);
        }
      }
      ReplaceAbsent(s[1..], pat, rep);
    }
  }

  /** Replacing a pattern by itself changes nothing. */
  lemma {:induction false} ReplaceSelf(s: string, pat: string)
    requires pat != []
    ensures Replace(s, pat, pat) == s
    decreases |s|
  {
    if |s| >= |pat| {
      if s[..|pat|] == pat {
        ReplaceSelf(s[|pat|..], pat);
        assert s == s[..|pat|] + s[|pat|..];
      } else {
        ReplaceSelf(s[1..], pat);
        assert s == [s[0]] + s[1..];
      }
    }
  }

  /** Replacement distributes over a string that starts with the pattern. */
  lemma ReplaceLeading(pat: string, rest: string, rep: string)
    requires pat != []
    ensures Replace(pat + rest, pat, rep) == rep + Replace(rest, pat, rep)
  {
    assert (pat + rest)[..|pat|] == pat;
    assert (pat + rest)[|pat|..] == rest;
  }

  /** Each occurrence is replaced: when the first occurrence of `pat` in `a + pat + b` is the one
      right after `a`, the text before it is kept, that occurrence becomes `rep`, and the scan
      goes on in `b`. */
  lemma {:induction false} ReplaceFirstOccurrence(a: string, pat: string, b: string, rep: string)
    requires pat != []
    requires forall i :: 0 <= i < |a| ==> !OccursAt(a + pat + b, pat, i)
    ensures Replace(a + pat + b, pat, rep) == a + rep + Replace(b, pat, rep)
    decreases |a|
  {
    var s := a + pat + b;
    if a == [] {
      assert s == pat + b;
      ReplaceLeading(pat, b, rep);
    } else {
      var s' := a[1..] + pat + b;
      assert s[1..] == s';
      assert s[..|pat|] != pat by {
        assert !OccursAt(s, pat, 0);
      }
      assert Replace(s, pat, rep) == [s[0]] + Replace(s', pat, rep);
      forall i | 0 <= i < |a| - 1 ensures !OccursAt(s', pat, i) {
        ShiftedOccurrence(s, pat, i);
      }
      ReplaceFirstOccurrence(a[1..], pat, b, rep);
      assert a == [s[0]] + a[1..];
    }
  }

  /** An occurrence in `s[1..]` is one in `s`, one place further on. */
  lemma ShiftedOccurrence(s: string, pat: string, i: int)
    requires s != [] && 0 <= i
    requires !OccursAt(s, pat, i + 1)
    ensures !OccursAt(s[1..], pat, i)
  {
    if i + |pat| <= |s[1..]| {
      assert s[1..][i..i + |pat|] == s[i + 1..i + 1 + |pat|];
    }
  }

  // ---- the templates ----

  /** The eight kinds of Quranic-verse distractor; their definition is not part of this model,
      and the variants are those the prompt selection matches on (prompts.rs:35-52). */
  datatype DistractorType =
    Collection | Diacritic | Phonetic | Morphological | Grammatical | AlternateVerse | Thematic | Collocational

  /** The template file's fields (prompts.rs:8-20). */
  datatype PromptTemplates = PromptTemplates(
    promptContextUrdu: string,
    promptQuranicVerse: string,
    collection: string,
    diacritic: string,
    phonetic: string,
    morphological: string,
    grammatical: string,
    alternateVerse: string,
    thematic: string,
    collocational: string)

  /** The template `arabic_prompt_template_quranic_verse_distractor_mcq` picks (prompts.rs:35-52). */
  function SelectTemplate(t: PromptTemplates, d: DistractorType): string {
    match d
    case Collection => t.collection
    case Diacritic => t.diacritic
    case Phonetic => t.phonetic
    case Morphological => t.morphological
    case Grammatical => t.grammatical
    case AlternateVerse => t.alternateVerse
    case Thematic => t.thematic
    case Collocational => t.collocational
  }

  /** The templates with the field of distractor type `d` set to `x`. */
  function WithTemplate(t: PromptTemplates, d: DistractorType, x: string): PromptTemplates {
    match d
    case Collection => t.(collection := x)
    case Diacritic => t.(diacritic := x)
    case Phonetic => t.(phonetic := x)
    case Morphological => t.(morphological := x)
    case Grammatical => t.(grammatical := x)
    case AlternateVerse => t.(alternateVerse := x)
    case Thematic => t.(thematic := x)
    case Collocational => t.(collocational := x)
  }

  /** Each distractor type reads its own template field and no other: changing the field of `d`
      changes what `d` selects and nothing any other type selects, and the Urdu template is
      never one of them. */
  lemma SelectTemplateOwnField(t: PromptTemplates, d: DistractorType, d': DistractorType, x: string)
    ensures SelectTemplate(WithTemplate(t, d, x), d') == if d == d' then x else SelectTemplate(t, d')
    ensures WithTemplate(t, d, x).promptContextUrdu == t.promptContextUrdu
  {
  }

  /** The two substitutions of prompts.rs:54-56 and 67-70. */
  function Fill(template: string, question: string, answer: string): string {
    Replace(Replace(template, "{question}", Trim(question)), "{correct_answer}", Trim(answer))
  }

  /** `arabic_prompt_template_quranic_verse_distractor_mcq` (prompts.rs:30-57). */
  function ArabicPrompt(t: PromptTemplates, question: string, answer: string, d: DistractorType): string {
    Fill(SelectTemplate(t, d), question, answer)
  }

  /** `urdu_prompt_template_context_mcq` (prompts.rs:66-71). */
  function UrduPrompt(t: PromptTemplates, question: string, answer: string): string {
    Fill(t.promptContextUrdu, question, answer)
  }

  /** Whitespace around either input does not change the prompt. */
  lemma FillIgnoresPadding(template: string, question: string, answer: string, ws1: string, ws2: string, ws3: string, ws4: string)
    requires AllWhitespace(ws1) && AllWhitespace(ws2) && AllWhitespace(ws3) && AllWhitespace(ws4)
    ensures Fill(template, ws1 + question + ws2, ws3 + answer + ws4) == Fill(template, question, answer)
  {
    TrimIgnoresPadding(ws1, question, ws2);
    TrimIgnoresPadding(ws3, answer, ws4);
  }

  /** A template with neither placeholder comes back unchanged, whatever the inputs. */
  lemma FillWithoutPlaceholders(template: string, question: string, answer: string)
    requires forall i :: !OccursAt(template, "{question}", i)
    requires forall i :: !OccursAt(template, "{correct_answer}", i)
    ensures Fill(template, question, answer) == template
  {
    ReplaceAbsent(template, "{question}", Trim(question));
    ReplaceAbsent(template, "{correct_answer}", Trim(answer));
  }

  /** The question is substituted first, so an answer placeholder typed into the question is
      itself replaced by the answer: the template "{question}" with the question
      "x{correct_answer}" and the answer "y" gives "xy". */
  lemma FillSubstitutesInsideQuestion()
    ensures Fill("{question}", "x{correct_answer}", "y") == "xy"
  {
    var q := "x{correct_answer}";
    assert Trim(q) == q by {
      assert TrimStart(q) == q;
      assert TrimEnd(q) == q;
    }
    assert Trim("y") == "y" by {
      assert TrimStart("y") == "y";
      assert TrimEnd("y") == "y";
    }
    ReplaceLeading("{question}", [], q);
    assert "{question}" + [] == "{question}";
    assert Replace([], "{question}", q) == [];
    assert q == ['x'] + "{correct_answer}";
    ReplaceLeading("{correct_answer}", [], "y");
    assert "{correct_answer}" + [] == "{correct_answer}";
    assert Replace([], "{correct_answer}", "y") == [];
  }
}
