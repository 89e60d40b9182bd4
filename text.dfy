/** The string operations of Python's `str` that the modelled code relies on, restricted
    to ASCII: whitespace is ASCII whitespace, case folding is ASCII case folding, and a
    word character is `[A-Za-z0-9_]`. */
module Text {
  import opened Common

  /** `str.isspace()` on ASCII: space, tab, line feed, vertical tab, form feed, carriage
      return and the four information separators 0x1C..0x1F. */
  predicate IsSpace(c: char) {
    c == ' ' || ('\t' <= c <= '\r') || ('\U{1C}' <= c <= '\U{1F}')
  }

  /** `\w` in a regular expression, restricted to ASCII. */
  predicate IsWordChar(c: char) {
    ('a' <= c <= 'z') || ('A' <= c <= 'Z') || ('0' <= c <= '9') || c == '_'
  }

  function LowerChar(c: char): char {
    if 'A' <= c <= 'Z' then (c as int + 32) as char else c
  }

  function UpperChar(c: char): char {
    if 'a' <= c <= 'z' then (c as int - 32) as char else c
  }

  /** `s.lower()` */
  function Lower(s: string): string {
    seq(|s|, i requires 0 <= i < |s| => LowerChar(s[i]))
  }

  /** `s.upper()` */
  function Upper(s: string): string {
    seq(|s|, i requires 0 <= i < |s| => UpperChar(s[i]))
  }

  lemma LowerOfUpper(s: string)
    ensures Lower(Upper(s)) == Lower(s)
  {
    assert forall i | 0 <= i < |s| :: LowerChar(UpperChar(s[i])) == LowerChar(s[i]);
  }

  lemma LowerConcat(a: string, b: string)
    ensures Lower(a + b) == Lower(a) + Lower(b)
  {
    assert forall i | 0 <= i < |a + b| :: Lower(a + b)[i] == (Lower(a) + Lower(b))[i];
  }

  // ---------------------------------------------------------------- str.split()

  /** A token produced by `str.split()`: non-empty, without whitespace. */
  predicate IsToken(w: string) {
    w != [] && forall c :: c in w ==> !IsSpace(c)
  }

  /** Length of the leading run of non-whitespace characters. */
  function RunLen(s: string): (k: nat)
    ensures k <= |s|
    ensures forall i :: 0 <= i < k ==> !IsSpace(s[i])
    ensures k < |s| ==> IsSpace(s[k])
  {
    if s == [] || IsSpace(s[0]) then 0 else 1 + RunLen(s[1..])
  }

  /** `s.split()`: the maximal runs of non-whitespace characters, left to right. */
  function Split(s: string): (ws: seq<string>)
    ensures forall w :: w in ws ==> IsToken(w)
    decreases |s|
  {
    if s == [] then []
    else if IsSpace(s[0]) then Split(s[1..])
    else
      var k := RunLen(s);
      [s[..k]] + Split(s[k..])
  }

  /** A token of `s` starts at `p`: a non-whitespace character at the start of `s` or
      right after whitespace. */
  predicate TokenStart(s: string, p: nat) {
    p < |s| && !IsSpace(s[p]) && (p == 0 || IsSpace(s[p - 1]))
  }

  /** The positions at or after `i` where a token of `s` starts, left to right. */
  function TokenStarts(s: string, i: nat): (ps: seq<nat>)
    requires i <= |s|
    ensures forall j :: 0 <= j < |ps| ==> i <= ps[j] < |s|
    decreases |s| - i
  {
    if i == |s| then []
    else if TokenStart(s, i) then [i] + TokenStarts(s, i + 1)
    else TokenStarts(s, i + 1)
  }

  /** `TokenStarts(s, i)` holds every token start at or after `i` and nothing else, in
      strictly increasing order. */
  lemma {:induction false} TokenStartsSpec(s: string, i: nat)
    requires i <= |s|
    ensures var ps := TokenStarts(s, i);
            && (forall p :: p in ps <==> i <= p && TokenStart(s, p))
            && (forall j, k :: 0 <= j < k < |ps| ==> ps[j] < ps[k])
    decreases |s| - i
  {
    if i < |s| {
      TokenStartsSpec(s, i + 1);
    }
  }

  /** The run of non-whitespace characters of `s` that starts at `p`. */
  function RunAt(s: string, p: nat): (w: string)
    requires p <= |s|
    ensures |w| == RunLen(s[p..])
  {
    s[p..p + RunLen(s[p..])]
  }

  /** No token starts in `[a, b)`, so the starts from `a` are the starts from `b`. */
  lemma {:induction false} NoTokenStartBetween(s: string, a: nat, b: nat)
    requires a <= b <= |s|
    requires forall p :: a <= p < b ==> !TokenStart(s, p)
    ensures TokenStarts(s, a) == TokenStarts(s, b)
    decreases b - a
  {
    if a < b {
      NoTokenStartBetween(s, a + 1, b);
    }
  }

  /** Whitespace at `i` is skipped by `Split` and starts no token. */
  lemma {:induction false} SplitSkipsSpace(s: string, i: nat)
    requires i < |s| && IsSpace(s[i])
    ensures Split(s[i..]) == Split(s[i + 1..])
    ensures TokenStarts(s, i) == TokenStarts(s, i + 1)
  {
    assert s[i..][1..] == s[i + 1..];
  }

  /** A token starting at `i` is the first token of the suffix from `i`, and the rest
      are the tokens past it. */
  lemma SplitTakesRun(s: string, i: nat)
    requires TokenStart(s, i)
    ensures var k := RunLen(s[i..]);
            && 0 < k && (i + k == |s| || IsSpace(s[i + k]))
            && Split(s[i..]) == [RunAt(s, i)] + Split(s[i + k..])
  {
    var t, k := s[i..], RunLen(s[i..]);
    SplitOfRunHead(t);
    assert t[..k] == RunAt(s, i);
    assert t[k..] == s[i + k..];
  }

  /** A suffix that opens with a non-whitespace character begins with its first token. */
  lemma SplitOfRunHead(t: string)
    requires t != [] && !IsSpace(t[0])
    ensures 0 < RunLen(t) && Split(t) == [t[..RunLen(t)]] + Split(t[RunLen(t)..])
  {
  }

  /** No token starts inside the token at `i`, so the next token start is past it. */
  lemma TokenStartsPastRun(s: string, i: nat)
    requires TokenStart(s, i)
    ensures TokenStarts(s, i) == [i] + TokenStarts(s, i + RunLen(s[i..]))
  {
    var k := RunLen(s[i..]);
    forall p | i + 1 <= p < i + k
      ensures !TokenStart(s, p)
    {
      assert s[p - 1] == s[i..][p - 1 - i];
    }
    NoTokenStartBetween(s, i + 1, i + k);
  }

  /** `ws` are the runs of `s` at positions `ps`, in order. */
  predicate RunsAt(s: string, ws: seq<string>, ps: seq<nat>) {
    if ps == [] then ws == []
    else ws != [] && ps[0] <= |s| && ws[0] == RunAt(s, ps[0]) && RunsAt(s, ws[1..], ps[1..])
  }

  /** `RunsAt` position by position. */
  lemma {:induction false} RunsAtIndex(s: string, ws: seq<string>, ps: seq<nat>)
    requires RunsAt(s, ws, ps)
    ensures |ws| == |ps| && forall j :: 0 <= j < |ps| ==> ps[j] <= |s| && ws[j] == RunAt(s, ps[j])
  {
    if ps != [] {
      RunsAtIndex(s, ws[1..], ps[1..]);
      assert forall j :: 0 < j < |ps| ==> ws[j] == ws[1..][j - 1] && ps[j] == ps[1..][j - 1];
    }
  }

  lemma RunsAtCons(s: string, ws: seq<string>, ps: seq<nat>, p: nat, ws': seq<string>, ps': seq<nat>)
    requires RunsAt(s, ws, ps) && p <= |s|
    requires ws' == [RunAt(s, p)] + ws && ps' == [p] + ps
    ensures RunsAt(s, ws', ps')
  {
    assert ws'[1..] == ws && ps'[1..] == ps;
  }

  /** Skipping whitespace keeps the runs of the suffix. */
  lemma SplitFromSpace(s: string, i: nat)
    requires i < |s| && IsSpace(s[i])
    requires RunsAt(s, Split(s[i + 1..]), TokenStarts(s, i + 1))
    ensures RunsAt(s, Split(s[i..]), TokenStarts(s, i))
  {
    SplitSkipsSpace(s, i);
  }

  /** A token start adds its run in front of the runs past it. */
  lemma SplitFromRun(s: string, i: nat, k: nat)
    requires TokenStart(s, i) && k == RunLen(s[i..])
    requires RunsAt(s, Split(s[i + k..]), TokenStarts(s, i + k))
    ensures RunsAt(s, Split(s[i..]), TokenStarts(s, i))
  {
    SplitTakesRun(s, i);
    TokenStartsPastRun(s, i);
    RunsAtCons(s, Split(s[i + k..]), TokenStarts(s, i + k), i, Split(s[i..]), TokenStarts(s, i));
  }

  /** Past the end of `s` there are no tokens. */
  lemma SplitFromEnd(s: string)
    ensures RunsAt(s, Split(s[|s|..]), TokenStarts(s, |s|))
  {
    assert s[|s|..] == [];
  }

  /** The token at `i` ends at the end of `s` or right before whitespace. */
  lemma RunEnd(s: string, i: nat) returns (k: nat)
    requires i < |s|
    ensures k == RunLen(s[i..]) && i + k <= |s|
    ensures i + k == |s| || IsSpace(s[i + k])
  {
    k := RunLen(s[i..]);
    if i + k < |s| {
      assert s[i + k] == s[i..][k];
    }
  }

  /** Splitting the suffix from a position that does not cut a token gives, in order,
      the runs that start at the token starts of that suffix. */
  lemma {:induction false} SplitFrom(s: string, i: nat)
    requires i <= |s|
    requires i == 0 || i == |s| || IsSpace(s[i - 1]) || IsSpace(s[i])
    ensures RunsAt(s, Split(s[i..]), TokenStarts(s, i))
    decreases |s| - i
  {
    if i == |s| {
      SplitFromEnd(s);
    } else {
      var j := SplitFromStep(s, i);
      SplitFrom(s, j);
    }
  }

  /** One step of `SplitFrom`: past one whitespace character or one whole token, to a
      position that again does not cut a token. */
  lemma SplitFromStep(s: string, i: nat) returns (j: nat)
    requires i < |s|
    requires i == 0 || IsSpace(s[i - 1]) || IsSpace(s[i])
    ensures i < j <= |s| && (j == |s| || IsSpace(s[j - 1]) || IsSpace(s[j]))
    ensures RunsAt(s, Split(s[j..]), TokenStarts(s, j)) ==> RunsAt(s, Split(s[i..]), TokenStarts(s, i))
  {
    if IsSpace(s[i]) {
      j := i + 1;
      if RunsAt(s, Split(s[j..]), TokenStarts(s, j)) {
        SplitFromSpace(s, i);
      }
    } else {
      j := RunEnd(s, i);
      if RunsAt(s, Split(s[i + j..]), TokenStarts(s, i + j)) {
        SplitFromRun(s, i, j);
      }
      j := i + j;
    }
  }

  /** `s.split()` lists, in order, exactly the maximal non-whitespace runs of `s`: the
      `j`-th token is the run starting at the `j`-th token start. */
  lemma SplitIsRuns(s: string)
    ensures var ps := TokenStarts(s, 0);
            && (forall p :: p in ps <==> TokenStart(s, p))
            && (forall j, k :: 0 <= j < k < |ps| ==> ps[j] < ps[k])
            && |Split(s)| == |ps|
            && forall j :: 0 <= j < |ps| ==> Split(s)[j] == RunAt(s, ps[j])
  {
    TokenStartsSpec(s, 0);
    SplitFrom(s, 0);
    assert s[0..] == s;
    RunsAtIndex(s, Split(s), TokenStarts(s, 0));
  }

  /** `s.split()` is empty exactly when `s` is all whitespace. */
  lemma {:induction false} SplitEmptyIffBlank(s: string)
    ensures Split(s) == [] <==> forall i :: 0 <= i < |s| ==> IsSpace(s[i])
    decreases |s|
  {
    if s != [] && IsSpace(s[0]) {
      SplitEmptyIffBlank(s[1..]);
      assert forall i :: 1 <= i < |s| ==> s[i] == s[1..][i - 1];
    }
  }

  // ---------------------------------------------------------------- str.join()

  /** `sep.join(xs)` */
  function Join(sep: string, xs: seq<string>): string {
    if xs == [] then []
    else if |xs| == 1 then xs[0]
    else xs[0] + sep + Join(sep, xs[1..])
  }

  /** Tokens joined by single spaces start and end with a non-whitespace character. */
  lemma {:induction false} JoinOfTokens(ws: seq<string>)
    requires ws != [] && forall w :: w in ws ==> IsToken(w)
    ensures var j := Join(" ", ws); j != [] && !IsSpace(j[0]) && !IsSpace(j[|j| - 1])
  {
    assert IsToken(ws[0]) && ws[0][0] in ws[0];
    if |ws| > 1 {
      assert forall w :: w in ws[1..] ==> w in ws;
      JoinOfTokens(ws[1..]);
      var rest := Join(" ", ws[1..]);
      assert Join(" ", ws) == ws[0] + " " + rest;
    } else {
      assert ws[0][|ws[0]| - 1] in ws[0];
    }
  }

  // ---------------------------------------------------------------- str.strip()

  function StripLeft(s: string): string {
    if s != [] && IsSpace(s[0]) then StripLeft(s[1..]) else s
  }

  function StripRight(s: string): string {
    if s != [] && IsSpace(s[|s| - 1]) then StripRight(s[..|s| - 1]) else s
  }

  /** `s.strip()` */
  function Strip(s: string): string {
    StripRight(StripLeft(s))
  }

  /** Right-stripping keeps a prefix of `s` and drops only trailing whitespace. */
  lemma {:induction false} StripRightDropsSpaces(s: string)
    ensures var r := StripRight(s);
            |r| <= |s| && r == s[..|r|] && (r == [] || !IsSpace(r[|r| - 1])) &&
            forall i :: |r| <= i < |s| ==> IsSpace(s[i])
  {
    if s != [] && IsSpace(s[|s| - 1]) {
      StripRightDropsSpaces(s[..|s| - 1]);
    }
  }

  lemma StripUnchanged(s: string)
    requires s != [] && !IsSpace(s[0]) && !IsSpace(s[|s| - 1])
    ensures Strip(s) == s
  {
  }

  /** Stripping a string that starts with `p` keeps `p` when `p` starts and ends with a
      non-whitespace character. */
  lemma StripKeepsPrefix(p: string, y: string)
    requires p != [] && !IsSpace(p[0]) && !IsSpace(p[|p| - 1])
    ensures |Strip(p + y)| >= |p| && Strip(p + y)[..|p|] == p
  {
    var s := p + y;
    assert s[0] == p[0];
    assert StripLeft(s) == s;
    var r := StripRight(s);
    StripRightDropsSpaces(s);
    assert s[|p| - 1] == p[|p| - 1];
    assert |r| >= |p|;
    assert r[..|p|] == s[..|p|];
  }

  /** Stripping `p` followed by whitespace gives back `p` when `p` starts and ends with a
      non-whitespace character. */
  lemma StripDropsTrailingSpaces(p: string, y: string)
    requires p != [] && !IsSpace(p[0]) && !IsSpace(p[|p| - 1])
    requires forall c :: c in y ==> IsSpace(c)
    ensures Strip(p + y) == p
  {
    var s := p + y;
    assert s[0] == p[0];
    assert StripLeft(s) == s;
    StripRightDropsSpaces(s);
    var r := StripRight(s);
    assert s[|p| - 1] == p[|p| - 1];
    assert r == s[..|p|] == p;
  }

  // ---------------------------------------------------------------- substring test

  ghost predicate OccursAt(hay: string, needle: string, i: nat) {
    i + |needle| <= |hay| && hay[i..i + |needle|] == needle
  }

  lemma OccursShift(hay: string, needle: string)
    requires hay != []
    ensures forall i: nat :: OccursAt(hay[1..], needle, i) <==> OccursAt(hay, needle, i + 1)
  {
    forall i: nat
      ensures OccursAt(hay[1..], needle, i) <==> OccursAt(hay, needle, i + 1)
    {
      if i + |needle| <= |hay[1..]| {
        assert hay[1..][i..i + |needle|] == hay[i + 1..i + 1 + |needle|];
      }
    }
  }

  /** `needle in hay` on strings. */
  function Contains(hay: string, needle: string): (r: bool)
    ensures r <==> exists i: nat :: OccursAt(hay, needle, i)
    decreases |hay|
  {
    if |needle| > |hay| then false
    else if hay[..|needle|] == needle then assert OccursAt(hay, needle, 0); true
    else
      ContainsStep(hay, needle);
      Contains(hay[1..], needle)
  }

  lemma ContainsStep(hay: string, needle: string)
    requires |needle| <= |hay| && hay[..|needle|] != needle
    ensures (exists i: nat :: OccursAt(hay, needle, i)) <==> (exists i: nat :: OccursAt(hay[1..], needle, i))
  {
    OccursShift(hay, needle);
    if i: nat :| OccursAt(hay, needle, i) {
      assert i != 0;
      assert OccursAt(hay[1..], needle, i - 1);
    }
    if i: nat :| OccursAt(hay[1..], needle, i) {
      assert OccursAt(hay, needle, i + 1);
    }
  }

  /** Text added before or after a string keeps every substring it had. */
  lemma ContainsExtended(a: string, hay: string, b: string, needle: string)
    requires Contains(hay, needle)
    ensures Contains(a + hay + b, needle)
  {
    var i: nat :| OccursAt(hay, needle, i);
    var s := a + hay + b;
    assert s[|a| + i..|a| + i + |needle|] == hay[i..i + |needle|];
    assert OccursAt(s, needle, |a| + i);
  }

  /** A string that begins with `needle` contains it. */
  lemma ContainsAtStart(hay: string, needle: string)
    requires |needle| <= |hay| && hay[..|needle|] == needle
    ensures Contains(hay, needle)
  {
    assert OccursAt(hay, needle, 0);
  }

  /** A joined string contains whatever one of its parts contains. */
  lemma {:induction false} JoinContains(sep: string, xs: seq<string>, k: nat, needle: string)
    requires k < |xs| && Contains(xs[k], needle)
    ensures Contains(Join(sep, xs), needle)
  {
    if |xs| == 1 {
    } else if k == 0 {
      ContainsExtended([], xs[0], sep + Join(sep, xs[1..]), needle);
      assert [] + xs[0] + (sep + Join(sep, xs[1..])) == Join(sep, xs);
    } else {
      JoinContains(sep, xs[1..], k - 1, needle);
      ContainsExtended(xs[0] + sep, Join(sep, xs[1..]), [], needle);
      assert xs[0] + sep + Join(sep, xs[1..]) + [] == Join(sep, xs);
    }
  }

  // ---------------------------------------------------------------- str(), slicing, `or`

  function DigitChar(d: nat): char
    requires d < 10
  {
    ('0' as int + d) as char
  }

  function NatToString(n: nat): string
    decreases n
  {
    if n < 10 then [DigitChar(n)] else NatToString(n / 10) + [DigitChar(n % 10)]
  }

  /** `str(i)` for an int. */
  function IntToString(i: int): string {
    if i < 0 then "-" + NatToString(-i) else NatToString(i)
  }

  /** How an optional int is rendered by an f-string: `None` or its digits. */
  function ShowInt(o: Option<int>): string {
    if o.Some? then IntToString(o.value) else "None"
  }

  /** How an optional str is rendered by an f-string: `None` or the string itself. */
  function ShowStr(o: Option<string>): string {
    if o.Some? then o.value else "None"
  }

  /** Python's `a or b` where `a` is an optional string: `b` when `a` is None or empty. */
  function StrOr(a: Option<string>, b: string): string {
    if a.Some? && a.value != "" then a.value else b
  }

  /** A Python slice bound normalised against a sequence of length `n`: a negative bound
      counts from the end, and the result is clamped to `0..n`. */
  function SliceIndex(i: int, n: nat): (r: nat)
    ensures r <= n
    ensures 0 <= i ==> r == Min(i, n)
    ensures i < 0 ==> r == Max(0, n + i)
  {
    if i < 0 then (if i + n < 0 then 0 else i + n) else if i > n then n else i
  }

  /** `s[a:b]` */
  function PySlice<T>(s: seq<T>, a: int, b: int): seq<T> {
    var lo := SliceIndex(a, |s|);
    var hi := SliceIndex(b, |s|);
    if lo < hi then s[lo..hi] else []
  }

  /** `s[:k]` */
  function PyPrefix<T>(s: seq<T>, k: int): (r: seq<T>)
    ensures 0 <= k ==> r == s[..Min(k, |s|)]
    ensures k < 0 ==> r == s[..Max(0, |s| + k)]
  {
    PySlice(s, 0, k)
  }
}
