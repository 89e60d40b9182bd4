/** Snippet windowing (app/utils/snippets.py): the words of the query find the first
    whole-word occurrence in a text, a window of bounded width is cut around it, and every
    whole-word occurrence of a query word inside the window is wrapped in `<mark>` tags.

    The regular expressions are read with ASCII semantics: `\w` is `[A-Za-z0-9_]`, `\b`
    is the boundary between a word character and anything else, and `(?i)` is ASCII case
    folding. */
module Snippets {
  import opened Common
  import opened Text

  /** Non-empty and made of word characters only. */
  predicate IsWord(w: string) {
    w != [] && forall c :: c in w ==> IsWordChar(c)
  }

  /** Length of the leading run of word characters. */
  function WordLen(s: string): (n: nat)
    ensures n <= |s|
    ensures forall i :: 0 <= i < n ==> IsWordChar(s[i])
    ensures n < |s| ==> !IsWordChar(s[n])
  {
    if s == [] || !IsWordChar(s[0]) then 0 else 1 + WordLen(s[1..])
  }

  /** `re.findall(r"\w+", s)`: the maximal runs of word characters, left to right. */
  function Words(s: string): (ws: seq<string>)
    ensures forall w :: w in ws ==> IsWord(w) && forall c :: c in w ==> c in s
    decreases |s|
  {
    if s == [] then []
    else if !IsWordChar(s[0]) then Words(s[1..])
    else
      var n := WordLen(s);
      [s[..n]] + Words(s[n..])
  }

  /** The words longer than two characters, in order. */
  function LongWords(ws: seq<string>): (ts: seq<string>)
    ensures forall t :: t in ts <==> t in ws && |t| > 2
  {
    if ws == [] then []
    else if |ws[0]| > 2 then [ws[0]] + LongWords(ws[1..])
    else LongWords(ws[1..])
  }

  /** The query terms: the words of the lower-cased query longer than two characters.
      Escaping them changes nothing, since they hold word characters only. */
  function Terms(query: string): (ts: seq<string>)
    ensures forall t :: t in ts ==> IsWord(t) && |t| > 2
  {
    LongWords(Words(Lower(query)))
  }

  /** Every term is already in lower case, so comparing a lower-cased word of the text
      with the terms is the case-insensitive comparison `(?i)` asks for. */
  lemma TermsAreLowerCase(query: string)
    ensures forall t :: t in Terms(query) ==> Lower(t) == t
  {
    var q := Lower(query);
    assert forall c :: c in q ==> LowerChar(c) == c;
    forall t | t in Terms(query)
      ensures Lower(t) == t
    {
      assert forall i | 0 <= i < |t| :: t[i] in t && LowerChar(t[i]) == t[i];
    }
  }

  /** The terms do not depend on the case of the query. */
  lemma TermsIgnoreCase(query: string)
    ensures Terms(Upper(query)) == Terms(query)
  {
    LowerOfUpper(query);
  }

  // ---------------------------------------------------------------- words by position

  /** A word of `s` starts at `p`: a word character at the start of `s` or right after a
      character that is not one (the position `\b\w` matches at). */
  predicate WordStart(s: string, p: nat) {
    p < |s| && IsWordChar(s[p]) && (p == 0 || !IsWordChar(s[p - 1]))
  }

  /** The run of word characters of `s` that starts at `p`. */
  function WordAt(s: string, p: nat): (w: string)
    requires p <= |s|
    ensures |w| == WordLen(s[p..])
  {
    s[p..p + WordLen(s[p..])]
  }

  /** The positions at or after `i` where a word of `s` starts, left to right. */
  function WordStarts(s: string, i: nat): (ps: seq<nat>)
    requires i <= |s|
    ensures forall j :: 0 <= j < |ps| ==> i <= ps[j] < |s|
    decreases |s| - i
  {
    if i == |s| then []
    else if WordStart(s, i) then [i] + WordStarts(s, i + 1)
    else WordStarts(s, i + 1)
  }

  /** `WordStarts(s, i)` holds every word start at or after `i` and nothing else, in
      strictly increasing order. */
  lemma {:induction false} WordStartsSpec(s: string, i: nat)
    requires i <= |s|
    ensures var ps := WordStarts(s, i);
            && (forall p :: p in ps <==> i <= p && WordStart(s, p))
            && (forall j, k :: 0 <= j < k < |ps| ==> ps[j] < ps[k])
    decreases |s| - i
  {
    if i < |s| {
      WordStartsSpec(s, i + 1);
    }
  }

  /** No word starts in `[a, b)`, so the starts from `a` are the starts from `b`. */
  lemma {:induction false} NoWordStartBetween(s: string, a: nat, b: nat)
    requires a <= b <= |s|
    requires forall p :: a <= p < b ==> !WordStart(s, p)
    ensures WordStarts(s, a) == WordStarts(s, b)
    decreases b - a
  {
    if a < b {
      NoWordStartBetween(s, a + 1, b);
    }
  }

  /** A character that is not a word character is skipped by `Words` and starts no
      word. */
  lemma {:induction false} WordsSkipNonWord(s: string, i: nat)
    requires i < |s| && !IsWordChar(s[i])
    ensures Words(s[i..]) == Words(s[i + 1..])
    ensures WordStarts(s, i) == WordStarts(s, i + 1)
  {
    assert s[i..][1..] == s[i + 1..];
  }

  /** A word starting at `i` is the first word of the suffix from `i`, and the rest are
      the words past it. */
  lemma WordsTakeWord(s: string, i: nat)
    requires WordStart(s, i)
    ensures var n := WordLen(s[i..]);
            && 0 < n && (i + n == |s| || !IsWordChar(s[i + n]))
            && Words(s[i..]) == [WordAt(s, i)] + Words(s[i + n..])
  {
    var t, n := s[i..], WordLen(s[i..]);
    WordsOfWordHead(t);
    assert t[..n] == WordAt(s, i);
    assert t[n..] == s[i + n..];
  }

  /** A suffix that opens with a word character begins with its first word. */
  lemma WordsOfWordHead(t: string)
    requires t != [] && IsWordChar(t[0])
    ensures 0 < WordLen(t) && Words(t) == [t[..WordLen(t)]] + Words(t[WordLen(t)..])
  {
  }

  /** No word starts inside the word at `i`, so the next word start is past it. */
  lemma WordStartsPastWord(s: string, i: nat)
    requires WordStart(s, i)
    ensures WordStarts(s, i) == [i] + WordStarts(s, i + WordLen(s[i..]))
  {
    var n := WordLen(s[i..]);
    forall p | i + 1 <= p < i + n
      ensures !WordStart(s, p)
    {
      assert s[p - 1] == s[i..][p - 1 - i];
    }
    NoWordStartBetween(s, i + 1, i + n);
  }

  /** `ws` are the words of `s` at positions `ps`, in order. */
  predicate WordsAt(s: string, ws: seq<string>, ps: seq<nat>) {
    if ps == [] then ws == []
    else ws != [] && ps[0] <= |s| && ws[0] == WordAt(s, ps[0]) && WordsAt(s, ws[1..], ps[1..])
  }

  /** `WordsAt` position by position. */
  lemma {:induction false} WordsAtIndex(s: string, ws: seq<string>, ps: seq<nat>)
    requires WordsAt(s, ws, ps)
    ensures |ws| == |ps| && forall j :: 0 <= j < |ps| ==> ps[j] <= |s| && ws[j] == WordAt(s, ps[j])
  {
    if ps != [] {
      WordsAtIndex(s, ws[1..], ps[1..]);
      assert forall j :: 0 < j < |ps| ==> ws[j] == ws[1..][j - 1] && ps[j] == ps[1..][j - 1];
    }
  }

  lemma WordsAtCons(s: string, ws: seq<string>, ps: seq<nat>, p: nat, ws': seq<string>, ps': seq<nat>)
    requires WordsAt(s, ws, ps) && p <= |s|
    requires ws' == [WordAt(s, p)] + ws && ps' == [p] + ps
    ensures WordsAt(s, ws', ps')
  {
    assert ws'[1..] == ws && ps'[1..] == ps;
  }

  lemma WordsFromNonWord(s: string, i: nat)
    requires i < |s| && !IsWordChar(s[i])
    requires WordsAt(s, Words(s[i + 1..]), WordStarts(s, i + 1))
    ensures WordsAt(s, Words(s[i..]), WordStarts(s, i))
  {
    WordsSkipNonWord(s, i);
  }

  lemma WordsFromWord(s: string, i: nat, n: nat)
    requires WordStart(s, i) && n == WordLen(s[i..])
    requires WordsAt(s, Words(s[i + n..]), WordStarts(s, i + n))
    ensures WordsAt(s, Words(s[i..]), WordStarts(s, i))
  {
    WordsTakeWord(s, i);
    WordStartsPastWord(s, i);
    WordsAtCons(s, Words(s[i + n..]), WordStarts(s, i + n), i, Words(s[i..]), WordStarts(s, i));
  }

  /** The words of a suffix that does not cut a word are the words at its word starts. */
  lemma {:induction false} WordsFrom(s: string, i: nat)
    requires i <= |s|
    requires i == 0 || i == |s| || !IsWordChar(s[i - 1]) || !IsWordChar(s[i])
    ensures WordsAt(s, Words(s[i..]), WordStarts(s, i))
    decreases |s| - i
  {
    if i == |s| {
      assert s[i..] == [];
    } else if !IsWordChar(s[i]) {
      WordsFrom(s, i + 1);
      WordsFromNonWord(s, i);
    } else {
      var n := WordLen(s[i..]);
      WordsFrom(s, i + n);
      WordsFromWord(s, i, n);
    }
  }

  /** `re.findall(r"\w+", s)` lists, in order, exactly the maximal runs of word
      characters of `s`: the `j`-th word is the run at the `j`-th word start. */
  lemma WordsAreRuns(s: string)
    ensures var ps := WordStarts(s, 0);
            && (forall p :: p in ps <==> WordStart(s, p))
            && (forall j, k :: 0 <= j < k < |ps| ==> ps[j] < ps[k])
            && |Words(s)| == |ps|
            && forall j :: 0 <= j < |ps| ==> Words(s)[j] == WordAt(s, ps[j])
  {
    WordStartsSpec(s, 0);
    WordsFrom(s, 0);
    assert s[0..] == s;
    WordsAtIndex(s, Words(s), WordStarts(s, 0));
  }

  /** A string is one of the words of `s` exactly when it is the run at some word
      start. */
  lemma WordsMembership(s: string, w: string)
    ensures w in Words(s) <==> exists p :: WordStart(s, p) && w == WordAt(s, p)
  {
    WordsAreRuns(s);
    var ps := WordStarts(s, 0);
    if w in Words(s) {
      var j :| 0 <= j < |Words(s)| && Words(s)[j] == w;
      assert ps[j] in ps;
    }
    if p :| WordStart(s, p) && w == WordAt(s, p) {
      assert p in ps;
      var j :| 0 <= j < |ps| && ps[j] == p;
      assert Words(s)[j] == w;
    }
  }

  /** A term of the query is exactly a word of the lower-cased query, as a maximal run
      of word characters, that is longer than two characters. */
  lemma TermsAreLongWords(query: string, t: string)
    ensures t in Terms(query) <==>
              |t| > 2 && exists p :: WordStart(Lower(query), p) && t == WordAt(Lower(query), p)
  {
    WordsMembership(Lower(query), t);
  }

  // ---------------------------------------------------------------- pattern.search

  /** The pattern `(?i)\b(t1|...|tn)\b` matches at position `p` of `s`: a word starts at
      `p` and the whole of it, lower-cased, is one of the terms. Since every term is a run
      of word characters, the closing `\b` admits no shorter or longer match. */
  predicate MatchAt(s: string, terms: seq<string>, p: nat) {
    WordStart(s, p) && Lower(WordAt(s, p)) in terms
  }

  /** The regular-expression scan from position `i` onwards. */
  function FindFrom(s: string, terms: seq<string>, i: nat): Option<nat>
    requires i <= |s|
    decreases |s| - i
  {
    if i == |s| then None
    else if MatchAt(s, terms, i) then Some(i)
    else FindFrom(s, terms, i + 1)
  }

  /** `pattern.search(s).start()`, None when nothing matches. */
  function Search(s: string, terms: seq<string>): Option<nat> {
    FindFrom(s, terms, 0)
  }

  lemma {:induction false} FindFromIsFirst(s: string, terms: seq<string>, i: nat)
    requires i <= |s|
    ensures var r := FindFrom(s, terms, i);
            && (r.Some? ==> i <= r.value < |s| && MatchAt(s, terms, r.value) &&
                            forall p: nat :: i <= p < r.value ==> !MatchAt(s, terms, p))
            && (r.None? ==> forall p: nat :: i <= p ==> !MatchAt(s, terms, p))
    decreases |s| - i
  {
    if i < |s| && !MatchAt(s, terms, i) {
      FindFromIsFirst(s, terms, i + 1);
    }
  }

  /** The search finds the leftmost match, and finds none only when there is none. */
  lemma SearchIsFirst(s: string, terms: seq<string>)
    ensures var r := Search(s, terms);
            && (r.Some? ==> MatchAt(s, terms, r.value) &&
                            forall p: nat :: p < r.value ==> !MatchAt(s, terms, p))
            && (r.None? <==> forall p: nat :: !MatchAt(s, terms, p))
  {
    FindFromIsFirst(s, terms, 0);
  }

  // ---------------------------------------------------------------- pattern.sub

  /** A piece of the snippet as the substitution sees it: one non-word character, or a
      maximal word, marked when it is a term. */
  datatype Segment = Plain(c: char) | Word(w: string, marked: bool)

  function Segments(s: string, terms: seq<string>): (segs: seq<Segment>)
    ensures s != [] ==> segs != [] && (segs[0].Plain? <==> !IsWordChar(s[0]))
    decreases |s|
  {
    if s == [] then []
    else if !IsWordChar(s[0]) then [Plain(s[0])] + Segments(s[1..], terms)
    else
      var n := WordLen(s);
      [Word(s[..n], Lower(s[..n]) in terms)] + Segments(s[n..], terms)
  }

  /** The characters a segment covers in the snippet. */
  function SegmentText(g: Segment): string {
    match g
    case Plain(c) => [c]
    case Word(w, _) => w
  }

  function Flatten(segs: seq<Segment>): string {
    if segs == [] then [] else SegmentText(segs[0]) + Flatten(segs[1..])
  }

  /** What the substitution writes for a segment. */
  function Rendered(g: Segment): string {
    match g
    case Plain(c) => [c]
    case Word(w, marked) => if marked then "<mark>" + w + "</mark>" else w
  }

  function Render(segs: seq<Segment>): string {
    if segs == [] then [] else Rendered(segs[0]) + Render(segs[1..])
  }

  /** `pattern.sub(lambda mm: f"<mark>{mm.group(0)}</mark>", s)` */
  function Mark(s: string, terms: seq<string>): string {
    Render(Segments(s, terms))
  }

  /** The segments are single non-word characters and maximal words (no two words side
      by side), and a word is marked exactly when it is a term. */
  ghost predicate WellFormed(segs: seq<Segment>, terms: seq<string>) {
    && (forall k :: 0 <= k < |segs| && segs[k].Plain? ==> !IsWordChar(segs[k].c))
    && (forall k :: 0 <= k < |segs| && segs[k].Word? ==>
          IsWord(segs[k].w) && (segs[k].marked <==> Lower(segs[k].w) in terms))
    && (forall k :: 0 <= k < |segs| - 1 && segs[k].Word? ==> segs[k + 1].Plain?)
  }

  /** A segment in front of well-formed segments keeps them well-formed, provided a
      word is not followed by another word. */
  lemma WellFormedCons(head: Segment, rest: seq<Segment>, terms: seq<string>)
    requires WellFormed(rest, terms)
    requires head.Plain? ==> !IsWordChar(head.c)
    requires head.Word? ==> IsWord(head.w) && (head.marked <==> Lower(head.w) in terms)
    requires head.Word? && rest != [] ==> rest[0].Plain?
    ensures WellFormed([head] + rest, terms)
  {
    var segs := [head] + rest;
    assert forall k :: 1 <= k < |segs| ==> segs[k] == rest[k - 1];
  }

  /** The first segment and the segments of the rest of the snippet. */
  lemma SegmentsHead(s: string, terms: seq<string>)
    requires s != []
    ensures var n := if IsWordChar(s[0]) then WordLen(s) else 1;
            && 0 < n <= |s|
            && Segments(s, terms) == [Segments(s, terms)[0]] + Segments(s[n..], terms)
            && SegmentText(Segments(s, terms)[0]) == s[..n]
  {
  }

  lemma FlattenCons(g: Segment, rest: seq<Segment>)
    ensures Flatten([g] + rest) == SegmentText(g) + Flatten(rest)
  {
    assert ([g] + rest)[1..] == rest;
  }

  /** A first segment covering `s[..n]` and segments covering `s[n..]` cover `s`. */
  lemma FlattenStep(s: string, n: nat, g: Segment, rest: seq<Segment>)
    requires n <= |s| && SegmentText(g) == s[..n] && Flatten(rest) == s[n..]
    ensures Flatten([g] + rest) == s
  {
    FlattenCons(g, rest);
    assert s[..n] + s[n..] == s;
  }

  /** The segments' characters, in order, are the snippet itself. */
  lemma {:induction false} SegmentsCover(s: string, terms: seq<string>)
    ensures Flatten(Segments(s, terms)) == s
    decreases |s|
  {
    if s != [] {
      var n := if IsWordChar(s[0]) then WordLen(s) else 1;
      var segs := Segments(s, terms);
      SegmentsHead(s, terms);
      SegmentsCover(s[n..], terms);
      FlattenStep(s, n, segs[0], Segments(s[n..], terms));
    }
  }

  /** The substitution cuts the snippet into well-formed segments: only the tags around
      the terms are added to it. */
  lemma {:induction false} SegmentsPartition(s: string, terms: seq<string>)
    ensures Flatten(Segments(s, terms)) == s
    ensures WellFormed(Segments(s, terms), terms)
    decreases |s|
  {
    SegmentsCover(s, terms);
    if s != [] {
      var n := if IsWordChar(s[0]) then WordLen(s) else 1;
      var segs := Segments(s, terms);
      var rest := Segments(s[n..], terms);
      SegmentsPartition(s[n..], terms);
      SegmentsHead(s, terms);
      if segs[0].Word? {
        assert forall c :: c in segs[0].w ==> IsWordChar(c);
        assert rest != [] ==> !IsWordChar(s[n..][0]);
      }
      WellFormedCons(segs[0], rest, terms);
    }
  }

  /** The words of the segments, in order. */
  function SegmentWords(segs: seq<Segment>): seq<string> {
    if segs == [] then []
    else (if segs[0].Word? then [segs[0].w] else []) + SegmentWords(segs[1..])
  }

  /** The number of marked words. */
  function MarkedCount(segs: seq<Segment>): nat {
    if segs == [] then 0
    else (if segs[0].Word? && segs[0].marked then 1 else 0) + MarkedCount(segs[1..])
  }

  /** The segment words of the substitution are the `\w+` words of the text. */
  lemma {:induction false} SegmentWordsAreWords(s: string, terms: seq<string>)
    ensures SegmentWords(Segments(s, terms)) == Words(s)
    decreases |s|
  {
    if s != [] {
      var n := if IsWordChar(s[0]) then WordLen(s) else 1;
      SegmentsHead(s, terms);
      SegmentWordsAreWords(s[n..], terms);
      var segs := Segments(s, terms);
      assert segs[1..] == Segments(s[n..], terms);
    }
  }

  /** Every word segment's word is among the segment words, and every segment word
      comes from a word segment. */
  lemma {:induction false} SegmentWordsMembership(segs: seq<Segment>, w: string)
    ensures w in SegmentWords(segs) <==> exists k :: 0 <= k < |segs| && segs[k].Word? && segs[k].w == w
  {
    if segs != [] {
      SegmentWordsMembership(segs[1..], w);
      if exists k :: 0 <= k < |segs[1..]| && segs[1..][k].Word? && segs[1..][k].w == w {
        var k :| 0 <= k < |segs[1..]| && segs[1..][k].Word? && segs[1..][k].w == w;
        assert segs[k + 1] == segs[1..][k];
      }
      if k :| 0 < k < |segs| && segs[k].Word? && segs[k].w == w {
        assert segs[1..][k - 1] == segs[k];
      }
    }
  }

  /** Each marked word adds the 13 characters of `<mark>` and `</mark>`; nothing else
      changes the length. */
  lemma {:induction false} RenderLength(segs: seq<Segment>)
    ensures |Render(segs)| == |Flatten(segs)| + 13 * MarkedCount(segs)
  {
    if segs != [] {
      RenderLength(segs[1..]);
    }
  }

  /** Without marked words the rendering is the segments' own text. */
  lemma {:induction false} RenderUnmarked(segs: seq<Segment>)
    requires MarkedCount(segs) == 0
    ensures Render(segs) == Flatten(segs)
  {
    if segs != [] {
      RenderUnmarked(segs[1..]);
    }
  }

  /** No marked word exactly when no word segment is marked. */
  lemma {:induction false} MarkedCountZero(segs: seq<Segment>)
    ensures MarkedCount(segs) == 0 <==> forall k :: 0 <= k < |segs| && segs[k].Word? ==> !segs[k].marked
  {
    if segs != [] {
      MarkedCountZero(segs[1..]);
      assert forall k :: 1 <= k < |segs| ==> segs[k] == segs[1..][k - 1];
    }
  }

  /** `pattern.sub` leaves a text unchanged exactly when no term occurs in it as a whole
      word; otherwise it wraps each such occurrence in `<mark>` tags. */
  lemma MarkUnchangedIffNoMatch(s: string, terms: seq<string>)
    ensures Mark(s, terms) == s <==> forall p: nat :: !MatchAt(s, terms, p)
  {
    var segs := Segments(s, terms);
    SegmentsPartition(s, terms);
    RenderLength(segs);
    MarkedCountZero(segs);
    SegmentWordsAreWords(s, terms);
    if forall p: nat :: !MatchAt(s, terms, p) {
      forall k | 0 <= k < |segs| && segs[k].Word?
        ensures !segs[k].marked
      {
        var w := segs[k].w;
        SegmentWordsMembership(segs, w);
        WordsMembership(s, w);
        var p :| WordStart(s, p) && w == WordAt(s, p);
        assert !MatchAt(s, terms, p);
      }
      RenderUnmarked(segs);
    } else {
      var p: nat :| MatchAt(s, terms, p);
      var w := WordAt(s, p);
      WordsMembership(s, w);
      SegmentWordsMembership(segs, w);
      var k :| 0 <= k < |segs| && segs[k].Word? && segs[k].w == w;
      assert segs[k].marked;
    }
  }

  // ---------------------------------------------------------------- make_snippet

  /** `max(0, m.start() - width // 2)`; Dafny's division by 2 floors like `//`. */
  function WindowStart(m: nat, width: int): nat {
    Max(0, m - width / 2)
  }

  /** `min(len(text), start + width)` */
  function WindowEnd(text: string, m: nat, width: int): int {
    Min(|text|, WindowStart(m, width) + width)
  }

  /** `make_snippet` once the terms are known. */
  function SnippetFor(text: string, terms: seq<string>, width: int): string {
    if terms == [] then PyPrefix(text, width)
    else
      match Search(text, terms)
      case None => PyPrefix(text, width)
      case Some(m) => Mark(PySlice(text, WindowStart(m, width), WindowEnd(text, m, width)), terms)
  }

  /** `make_snippet` */
  function MakeSnippet(text: string, query: string, width: int): string {
    SnippetFor(text, Terms(query), width)
  }

  /** Without terms, or without a whole-word occurrence of one, the snippet is the first
      `width` characters of the text. */
  lemma SnippetFallback(text: string, terms: seq<string>, width: int)
    requires terms == [] || forall p: nat :: !MatchAt(text, terms, p)
    ensures SnippetFor(text, terms, width) == PyPrefix(text, width)
  {
    SearchIsFirst(text, terms);
  }

  /** For a width that is not negative, the window around position `m` holds at most
      `width` characters; for a positive width it lies inside the text and contains `m`.
      (A negative width makes the end a negative slice bound, counted from the end of the
      text.) */
  lemma WindowBounds(text: string, m: nat, width: int)
    requires m < |text|
    ensures var start, end := WindowStart(m, width), WindowEnd(text, m, width);
            && (width >= 0 ==> |PySlice(text, start, end)| <= width)
            && (width > 0 ==> start <= m < end <= |text| && PySlice(text, start, end) == text[start..end])
  {
  }

  /** `make_snippet` falls back to the first `width` characters of the text when the
      query has no term of more than two characters, or none of its terms occurs in the
      text as a whole word. */
  lemma MakeSnippetFallback(text: string, query: string, width: int)
    requires forall p: nat :: !MatchAt(text, Terms(query), p)
    ensures MakeSnippet(text, query, width) == PyPrefix(text, width)
  {
    SnippetFallback(text, Terms(query), width);
  }

  /** When `m` is the first whole-word occurrence of a term of the query, `make_snippet`
      returns the window around `m` with every whole-word occurrence of a term marked. */
  lemma MakeSnippetAroundMatch(text: string, query: string, width: int, m: nat)
    requires MatchAt(text, Terms(query), m)
    requires forall p: nat :: p < m ==> !MatchAt(text, Terms(query), p)
    ensures MakeSnippet(text, query, width) ==
              Mark(PySlice(text, WindowStart(m, width), WindowEnd(text, m, width)), Terms(query))
  {
    SnippetAroundMatch(text, Terms(query), width, m);
  }

  /** When `m` is the first whole-word occurrence of a term, the snippet is the marked
      window from `WindowStart` to `WindowEnd`. */
  lemma SnippetAroundMatch(text: string, terms: seq<string>, width: int, m: nat)
    requires terms != []
    requires MatchAt(text, terms, m)
    requires forall p: nat :: p < m ==> !MatchAt(text, terms, p)
    ensures SnippetFor(text, terms, width) ==
              Mark(PySlice(text, WindowStart(m, width), WindowEnd(text, m, width)), terms)
  {
    SearchIsFirst(text, terms);
    var r := Search(text, terms);
    assert !(r.value < m) && !(m < r.value);
  }
}
