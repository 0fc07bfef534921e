/** The `{{ name(args) }}` placeholders of request parameters: the pattern
    behind `extract_function_names` and `substitute_templates`, the
    `parse_function!` dispatch and the two date helpers.

    The wall clock is the parameter `today`, a day number (see `Dates`). */
module Template {

  import opened Wrappers
  import opened Errors
  import opened Strings
  import Dates

  // ---- The pattern \{\{\s*([a-zA-Z_][a-zA-Z0-9_]*\([^}]*\))\s*\}\} ----

  /** `\s` in the regex crate's default Unicode mode: the White_Space characters. */
  predicate IsSpace(c: char) {
    ('\t' <= c <= '\r') || c == ' ' || c == '\U{85}' || c == '\U{A0}' || c == '\U{1680}'
    || ('\U{2000}' <= c <= '\U{200A}') || c == '\U{2028}' || c == '\U{2029}'
    || c == '\U{202F}' || c == '\U{205F}' || c == '\U{3000}'
  }

  predicate IsIdentStart(c: char) {
    ('a' <= c <= 'z') || ('A' <= c <= 'Z') || c == '_'
  }

  predicate IsIdentChar(c: char) {
    IsIdentStart(c) || ('0' <= c <= '9')
  }

  /** `t[cs..ce]` has the shape of the capture group, with its `(` at `k`:
      an identifier, `(`, anything but `}`, and a closing `)`. */
  predicate CallShape(t: string, cs: int, k: int, ce: int) {
    0 <= cs < k && k + 2 <= ce <= |t| && IsIdentStart(t[cs])
    && (forall j :: cs < j < k ==> IsIdentChar(t[j]))
    && t[k] == '('
    && (forall j :: k < j < ce - 1 ==> t[j] != '}')
    && t[ce - 1] == ')'
  }

  /** `n` is a text the capture group can match. */
  predicate IsCall(n: string) {
    exists k | 0 <= k < |n| :: CallShape(n, 0, k, |n|)
  }

  predicate AllSpace(t: string, lo: int, hi: int)
    requires 0 <= lo <= hi <= |t|
  {
    forall j :: lo <= j < hi ==> IsSpace(t[j])
  }

  /** A match of the whole pattern: `t[start..end]`, with the capture group at
      `t[callStart..callEnd]` and its `(` at `paren`. */
  datatype Match = Match(start: int, end: int, callStart: int, paren: int, callEnd: int)

  predicate IsMatch(t: string, m: Match) {
    0 <= m.start && m.start + 2 <= m.callStart <= m.callEnd && m.callEnd + 2 <= m.end <= |t|
    && t[m.start] == '{' && t[m.start + 1] == '{'
    && AllSpace(t, m.start + 2, m.callStart)
    && CallShape(t, m.callStart, m.paren, m.callEnd)
    && AllSpace(t, m.callEnd, m.end - 2)
    && t[m.end - 2] == '}' && t[m.end - 1] == '}'
  }

  /** No match of the pattern anywhere in `t`. */
  ghost predicate NoPlaceholder(t: string) {
    forall m :: !IsMatch(t, m)
  }

  /** `src` is, as a whole, one placeholder whose capture group is `call`. */
  ghost predicate IsPlaceholder(src: string, call: string) {
    exists m :: IsMatch(src, m) && m.start == 0 && m.end == |src| && src[m.callStart..m.callEnd] == call
  }

  // ---- Matching at one position ----

  /** The first position at or after `p` that is not whitespace. */
  function SkipSpace(t: string, p: nat): (q: nat)
    requires p <= |t|
    ensures p <= q <= |t|
    decreases |t| - p
  {
    if p < |t| && IsSpace(t[p]) then SkipSpace(t, p + 1) else p
  }

  lemma {:induction false} SkipSpaceSpec(t: string, p: nat)
    requires p <= |t|
    ensures var q := SkipSpace(t, p); AllSpace(t, p, q) && (q < |t| ==> !IsSpace(t[q]))
    decreases |t| - p
  {
    if p < |t| && IsSpace(t[p]) {
      SkipSpaceSpec(t, p + 1);
    }
  }

  /** The first position at or after `p` that cannot continue an identifier. */
  function SkipIdent(t: string, p: nat): (q: nat)
    requires p <= |t|
    ensures p <= q <= |t|
    decreases |t| - p
  {
    if p < |t| && IsIdentChar(t[p]) then SkipIdent(t, p + 1) else p
  }

  lemma {:induction false} SkipIdentSpec(t: string, p: nat)
    requires p <= |t|
    ensures var q := SkipIdent(t, p);
      (forall j :: p <= j < q ==> IsIdentChar(t[j])) && (q < |t| ==> !IsIdentChar(t[q]))
    decreases |t| - p
  {
    if p < |t| && IsIdentChar(t[p]) {
      SkipIdentSpec(t, p + 1);
    }
  }

  /** The first `}` at or after `p`, or the end of the text. */
  function FindBrace(t: string, p: nat): (q: nat)
    requires p <= |t|
    ensures p <= q <= |t|
    decreases |t| - p
  {
    if p < |t| && t[p] != '}' then FindBrace(t, p + 1) else p
  }

  lemma {:induction false} FindBraceSpec(t: string, p: nat)
    requires p <= |t|
    ensures var q := FindBrace(t, p); (forall j :: p <= j < q ==> t[j] != '}') && (q < |t| ==> t[q] == '}')
    decreases |t| - p
  {
    if p < |t| && t[p] != '}' {
      FindBraceSpec(t, p + 1);
    }
  }

  /** The end of `t[lo..hi]` once its trailing whitespace is dropped. */
  function TrimEnd(t: string, lo: nat, hi: nat): (q: nat)
    requires lo <= hi <= |t|
    ensures lo <= q <= hi
    decreases hi - lo
  {
    if hi > lo && IsSpace(t[hi - 1]) then TrimEnd(t, lo, hi - 1) else hi
  }

  lemma {:induction false} TrimEndSpec(t: string, lo: nat, hi: nat)
    requires lo <= hi <= |t|
    ensures var q := TrimEnd(t, lo, hi); AllSpace(t, q, hi) && (q > lo ==> !IsSpace(t[q - 1]))
    decreases hi - lo
  {
    if hi > lo && IsSpace(t[hi - 1]) {
      TrimEndSpec(t, lo, hi - 1);
    }
  }

  /** The match starting at `i`, if there is one. Since `[^}]*` cannot pass
      a `}`, the closing `}}` must begin at the first `}` after the `(`, so a
      position has at most one match. */
  function MatchAt(t: string, i: nat): (r: Option<Match>)
    requires i <= |t|
    ensures r.Some? ==> r.value.start == i && Ordered(r.value, |t|)
  {
    if i + 2 <= |t| && t[i] == '{' && t[i + 1] == '{' then MatchName(t, i, SkipSpace(t, i + 2))
    else None
  }

  /** After `{{` and the spaces: an identifier start at `cs`. */
  function MatchName(t: string, i: nat, cs: nat): (r: Option<Match>)
    requires i + 2 <= cs <= |t|
    ensures r.Some? ==> r.value.start == i && Ordered(r.value, |t|)
  {
    if cs < |t| && IsIdentStart(t[cs]) then MatchParen(t, i, cs, SkipIdent(t, cs + 1))
    else None
  }

  /** After the identifier: a `(` at `k`. */
  function MatchParen(t: string, i: nat, cs: nat, k: nat): (r: Option<Match>)
    requires i + 2 <= cs < k <= |t|
    ensures r.Some? ==> r.value.start == i && Ordered(r.value, |t|)
  {
    if k < |t| && t[k] == '(' then MatchClose(t, i, cs, k, FindBrace(t, k + 1))
    else None
  }

  /** The first `}` after the `(` is at `b`: it must open `}}`, and the text
      before it, trimmed, must end with `)`. */
  function MatchClose(t: string, i: nat, cs: nat, k: nat, b: nat): (r: Option<Match>)
    requires i + 2 <= cs < k < b <= |t|
    ensures r.Some? ==> r.value.start == i && Ordered(r.value, |t|)
  {
    if b + 1 < |t| && t[b + 1] == '}' then
      var ce := TrimEnd(t, k + 1, b);
      if ce > k + 1 && t[ce - 1] == ')' then Some(Match(i, b + 2, cs, k, ce))
      else None
    else None
  }

  /** The parts of a match lie in order inside a text of length `n`. */
  predicate Ordered(m: Match, n: int) {
    0 <= m.start && m.start + 2 <= m.callStart < m.paren && m.paren + 2 <= m.callEnd
    && m.callEnd + 2 <= m.end <= n
  }

  /** What `MatchAt` finds is a match of the pattern. */
  lemma MatchAtSound(t: string, i: nat)
    requires i <= |t|
    ensures MatchAt(t, i).Some? ==> IsMatch(t, MatchAt(t, i).value)
  {
    if i + 2 <= |t| && t[i] == '{' && t[i + 1] == '{' {
      SkipSpaceSpec(t, i + 2);
      MatchNameSound(t, i, SkipSpace(t, i + 2));
    }
  }

  lemma MatchNameSound(t: string, i: nat, cs: nat)
    requires i + 2 <= cs <= |t| && t[i] == '{' && t[i + 1] == '{' && AllSpace(t, i + 2, cs)
    ensures MatchName(t, i, cs).Some? ==> IsMatch(t, MatchName(t, i, cs).value)
  {
    if cs < |t| && IsIdentStart(t[cs]) {
      SkipIdentSpec(t, cs + 1);
      MatchParenSound(t, i, cs, SkipIdent(t, cs + 1));
    }
  }

  lemma MatchParenSound(t: string, i: nat, cs: nat, k: nat)
    requires i + 2 <= cs < k <= |t| && t[i] == '{' && t[i + 1] == '{' && AllSpace(t, i + 2, cs)
    requires IsIdentStart(t[cs]) && forall j :: cs + 1 <= j < k ==> IsIdentChar(t[j])
    ensures MatchParen(t, i, cs, k).Some? ==> IsMatch(t, MatchParen(t, i, cs, k).value)
  {
    if k < |t| && t[k] == '(' {
      FindBraceSpec(t, k + 1);
      MatchCloseSound(t, i, cs, k, FindBrace(t, k + 1));
    }
  }

  lemma MatchCloseSound(t: string, i: nat, cs: nat, k: nat, b: nat)
    requires i + 2 <= cs < k < b <= |t| && t[i] == '{' && t[i + 1] == '{' && AllSpace(t, i + 2, cs)
    requires IsIdentStart(t[cs]) && (forall j :: cs + 1 <= j < k ==> IsIdentChar(t[j])) && t[k] == '('
    requires (forall j :: k + 1 <= j < b ==> t[j] != '}') && (b < |t| ==> t[b] == '}')
    ensures MatchClose(t, i, cs, k, b).Some? ==> IsMatch(t, MatchClose(t, i, cs, k, b).value)
  {
    if b + 1 < |t| && t[b + 1] == '}' {
      TrimEndSpec(t, k + 1, b);
      var ce := TrimEnd(t, k + 1, b);
      if ce > k + 1 && t[ce - 1] == ')' {
        PartsMatch(t, i, cs, k, b, ce);
      }
    }
  }

  /** The parts the scanners find, put together, are a match. */
  lemma PartsMatch(t: string, i: nat, cs: nat, k: nat, b: nat, ce: nat)
    requires i + 2 <= cs < k < ce <= b && b + 1 < |t|
    requires t[i] == '{' && t[i + 1] == '{' && AllSpace(t, i + 2, cs)
    requires IsIdentStart(t[cs]) && (forall j :: cs + 1 <= j < k ==> IsIdentChar(t[j])) && t[k] == '('
    requires (forall j :: k + 1 <= j < b ==> t[j] != '}') && t[b] == '}' && t[b + 1] == '}'
    requires ce > k + 1 && t[ce - 1] == ')' && AllSpace(t, ce, b)
    ensures IsMatch(t, Match(i, b + 2, cs, k, ce))
  {
  }

  /** Every match of the pattern is the one `MatchAt` finds at its start. */
  lemma MatchAtComplete(t: string, m: Match)
    ensures IsMatch(t, m) ==> MatchAt(t, m.start) == Some(m)
  {
    if IsMatch(t, m) {
      SkipSpaceStops(t, m.start + 2, m.callStart);
      NameComplete(t, m);
      assert MatchAt(t, m.start) == MatchName(t, m.start, m.callStart);
    }
  }

  lemma NameComplete(t: string, m: Match)
    requires IsMatch(t, m)
    ensures MatchName(t, m.start, m.callStart) == Some(m)
  {
    SkipIdentStops(t, m.callStart + 1, m.paren);
    ParenComplete(t, m);
  }

  lemma ParenComplete(t: string, m: Match)
    requires IsMatch(t, m)
    ensures MatchParen(t, m.start, m.callStart, m.paren) == Some(m)
  {
    FindBraceStops(t, m.paren + 1, m.end - 2);
    CloseComplete(t, m);
  }

  lemma CloseComplete(t: string, m: Match)
    requires IsMatch(t, m)
    ensures MatchClose(t, m.start, m.callStart, m.paren, m.end - 2) == Some(m)
  {
    TrimEndStops(t, m.paren + 1, m.end - 2, m.callEnd);
  }

  lemma {:induction false} SkipSpaceStops(t: string, p: nat, q: nat)
    requires p <= q < |t| && AllSpace(t, p, q) && !IsSpace(t[q])
    ensures SkipSpace(t, p) == q
    decreases q - p
  {
    if p < q {
      SkipSpaceStops(t, p + 1, q);
    }
  }

  lemma {:induction false} SkipIdentStops(t: string, p: nat, q: nat)
    requires p <= q < |t| && (forall j :: p <= j < q ==> IsIdentChar(t[j])) && !IsIdentChar(t[q])
    ensures SkipIdent(t, p) == q
    decreases q - p
  {
    if p < q {
      SkipIdentStops(t, p + 1, q);
    }
  }

  lemma {:induction false} FindBraceStops(t: string, p: nat, q: nat)
    requires p <= q < |t| && (forall j :: p <= j < q ==> t[j] != '}') && t[q] == '}'
    ensures FindBrace(t, p) == q
    decreases q - p
  {
    if p < q {
      FindBraceStops(t, p + 1, q);
    }
  }

  lemma {:induction false} TrimEndStops(t: string, lo: nat, hi: nat, q: nat)
    requires lo < q <= hi <= |t| && AllSpace(t, q, hi) && !IsSpace(t[q - 1])
    ensures TrimEnd(t, lo, hi) == q
    decreases hi - q
  {
    if q < hi {
      TrimEndStops(t, lo, hi - 1, q);
    }
  }

  // ---- Matches in context ----

  function Shift(m: Match, d: int): Match {
    Match(m.start + d, m.end + d, m.callStart + d, m.paren + d, m.callEnd + d)
  }

  /** The capture group's shape does not depend on the text around it. */
  lemma CallShapeShift(t: string, lo: int, hi: int, cs: int, k: int, ce: int)
    requires 0 <= lo <= hi <= |t| && 0 <= cs && ce <= hi - lo
    ensures CallShape(t[lo..hi], cs, k, ce) <==> CallShape(t, cs + lo, k + lo, ce + lo)
  {
    var s := t[lo..hi];
    assert forall j :: 0 <= j < |s| ==> s[j] == t[j + lo];
    if CallShape(t, cs + lo, k + lo, ce + lo) {
      forall j | cs < j < k ensures IsIdentChar(s[j]) {
        assert IsIdentChar(t[j + lo]);
      }
      forall j | k < j < ce - 1 ensures s[j] != '}' {
        assert t[j + lo] != '}';
      }
    }
  }

  /** A match inside a slice is a match of the whole text, and a match of the
      whole text lying inside a slice is a match of the slice. */
  lemma MatchShift(t: string, lo: int, hi: int, m: Match)
    requires 0 <= lo <= hi <= |t|
    ensures IsMatch(t[lo..hi], m) ==> IsMatch(t, Shift(m, lo))
    ensures IsMatch(t, Shift(m, lo)) && m.end + lo <= hi && 0 <= m.start ==> IsMatch(t[lo..hi], m)
  {
    if IsMatch(t[lo..hi], m) {
      MatchShiftOut(t, lo, hi, m);
    }
    if IsMatch(t, Shift(m, lo)) && m.end + lo <= hi && 0 <= m.start {
      MatchShiftIn(t, lo, hi, m);
    }
  }

  lemma MatchShiftOut(t: string, lo: int, hi: int, m: Match)
    requires 0 <= lo <= hi <= |t| && IsMatch(t[lo..hi], m)
    ensures IsMatch(t, Shift(m, lo))
  {
    CallShapeShift(t, lo, hi, m.callStart, m.paren, m.callEnd);
    AllSpaceShift(t, lo, hi, m.start + 2, m.callStart);
    AllSpaceShift(t, lo, hi, m.callEnd, m.end - 2);
  }

  lemma MatchShiftIn(t: string, lo: int, hi: int, m: Match)
    requires 0 <= lo <= hi <= |t| && 0 <= m.start && m.end + lo <= hi && IsMatch(t, Shift(m, lo))
    ensures IsMatch(t[lo..hi], m)
  {
    CallShapeShift(t, lo, hi, m.callStart, m.paren, m.callEnd);
    AllSpaceShift(t, lo, hi, m.start + 2, m.callStart);
    AllSpaceShift(t, lo, hi, m.callEnd, m.end - 2);
  }

  lemma AllSpaceShift(t: string, lo: int, hi: int, a: int, b: int)
    requires 0 <= lo <= hi <= |t| && 0 <= a <= b <= hi - lo
    ensures AllSpace(t[lo..hi], a, b) <==> AllSpace(t, a + lo, b + lo)
  {
    var s := t[lo..hi];
    if AllSpace(t, a + lo, b + lo) {
      forall j | a <= j < b ensures IsSpace(s[j]) {
        assert s[j] == t[j + lo];
      }
    }
  }

  /** The first match starting at or after `p`. */
  function FindFrom(t: string, p: nat): (r: Option<Match>)
    requires p <= |t|
    ensures r.Some? ==> p <= r.value.start && Ordered(r.value, |t|)
    decreases |t| - p
  {
    match MatchAt(t, p)
    case Some(m) => Some(m)
    case None => if p == |t| then None else FindFrom(t, p + 1)
  }

  /** `FindFrom` returns a match, and no position before it has one; when it
      returns nothing, no position from `p` on has one. */
  lemma FindFromSpec(t: string, p: nat)
    requires p <= |t|
    ensures var r := FindFrom(t, p);
      && (r.Some? ==> IsMatch(t, r.value) && forall j :: p <= j < r.value.start ==> MatchAt(t, j).None?)
      && (r.None? ==> forall j :: p <= j <= |t| ==> MatchAt(t, j).None?)
  {
    FindFromFound(t, p);
    if FindFrom(t, p).Some? {
      MatchAtSound(t, FindFrom(t, p).value.start);
      forall j | p <= j < FindFrom(t, p).value.start ensures MatchAt(t, j).None? {
        FindFromEarlier(t, p, j);
      }
    } else {
      forall j | p <= j <= |t| ensures MatchAt(t, j).None? {
        FindFromNone(t, p, j);
      }
    }
  }

  /** What `FindFrom` returns is what `MatchAt` finds at its start. */
  lemma {:induction false} FindFromFound(t: string, p: nat)
    requires p <= |t|
    ensures FindFrom(t, p).Some? ==> MatchAt(t, FindFrom(t, p).value.start) == FindFrom(t, p)
    decreases |t| - p
  {
    var here := MatchAt(t, p);
    if here.Some? {
      assert FindFrom(t, p) == here;
    } else if p < |t| {
      FindFromFound(t, p + 1);
      assert FindFrom(t, p) == FindFrom(t, p + 1);
    }
  }

  lemma {:induction false} FindFromEarlier(t: string, p: nat, j: nat)
    requires p <= j <= |t| && FindFrom(t, p).Some? && j < FindFrom(t, p).value.start
    ensures MatchAt(t, j).None?
    decreases |t| - p
  {
    if j > p {
      FindFromEarlier(t, p + 1, j);
    }
  }

  lemma {:induction false} FindFromNone(t: string, p: nat, j: nat)
    requires p <= j <= |t| && FindFrom(t, p).None?
    ensures MatchAt(t, j).None?
    decreases |t| - p
  {
    if j > p {
      FindFromNone(t, p + 1, j);
    }
  }

  /** No match begins between `p` and the one `FindFrom` picks. */
  lemma FindFromLeftmost(t: string, p: nat, m: Match)
    requires p <= |t|
    ensures IsMatch(t, m) && p <= m.start ==> FindFrom(t, p).Some? && FindFrom(t, p).value.start <= m.start
  {
    FindFromSpec(t, p);
    MatchAtComplete(t, m);
  }

  // ---- Splitting a text at its placeholders ----

  /** A placeholder and the text before it. */
  datatype Segment = Segment(before: string, source: string, call: string)

  /** A text cut into placeholders, each with the text before it, and the
      text after the last one. */
  datatype Split = Split(segments: seq<Segment>, tail: string)

  /** `captures_iter` from `p`: the leftmost match, then again after its end. */
  function Tokenize(t: string, p: nat): (s: Split)
    requires p <= |t|
    ensures |s.segments| > 0 ==> FindFrom(t, p).Some?
    decreases |t| - p
  {
    match FindFrom(t, p)
    case None => Split([], t[p..])
    case Some(m) =>
      var rest := Tokenize(t, m.end);
      Split([Segment(t[p..m.start], t[m.start..m.end], t[m.callStart..m.callEnd])] + rest.segments, rest.tail)
  }

  /** Every placeholder's capture group is a call. */
  lemma {:induction false} TokenizeCall(t: string, p: nat, i: nat)
    requires p <= |t| && i < |Tokenize(t, p).segments|
    ensures IsCall(Tokenize(t, p).segments[i].call)
    decreases |t| - p
  {
    var m := TokenizeStep(t, p);
    if i == 0 {
      FoundIsCall(t, p, m);
    } else {
      TokenizeCall(t, m.end, i - 1);
      assert Tokenize(t, p).segments[i] == Tokenize(t, m.end).segments[i - 1];
    }
  }

  lemma FoundIsCall(t: string, p: nat, m: Match)
    requires p <= |t| && FindFrom(t, p) == Some(m)
    ensures IsCall(t[m.callStart..m.callEnd])
  {
    FindFromSpec(t, p);
    CallIsCall(t, m);
  }

  /** The first placeholder comes from the first match; the rest come from
      the text after it. */
  lemma TokenizeStep(t: string, p: nat) returns (m: Match)
    requires p <= |t| && |Tokenize(t, p).segments| > 0
    ensures FindFrom(t, p) == Some(m) && p <= m.start && Ordered(m, |t|)
    ensures Tokenize(t, p).segments[0].call == t[m.callStart..m.callEnd]
    ensures Tokenize(t, p).segments[1..] == Tokenize(t, m.end).segments
  {
    m := FindFrom(t, p).value;
  }

  /** The capture group of a match, taken out of its text, is a call. */
  lemma CallIsCall(t: string, m: Match)
    requires IsMatch(t, m)
    ensures IsCall(t[m.callStart..m.callEnd])
  {
    CallShapeShift(t, m.callStart, m.callEnd, 0, m.paren - m.callStart, m.callEnd - m.callStart);
  }

  function Sources(segs: seq<Segment>): (r: seq<string>)
    ensures |r| == |segs|
  {
    seq(|segs|, i requires 0 <= i < |segs| => segs[i].source)
  }

  function Calls(segs: seq<Segment>): (r: seq<string>)
    ensures |r| == |segs|
  {
    seq(|segs|, i requires 0 <= i < |segs| => segs[i].call)
  }

  /** The texts before the placeholders, each followed by its `fills` entry. */
  function Fill(segs: seq<Segment>, fills: seq<string>): string
    requires |fills| == |segs|
  {
    if |segs| == 0 then "" else segs[0].before + fills[0] + Fill(segs[1..], fills[1..])
  }

  /** Putting the placeholders back between the texts rebuilds the input. */
  lemma {:induction false} TokenizeRoundTrip(t: string, p: nat)
    requires p <= |t|
    ensures var s := Tokenize(t, p); Fill(s.segments, Sources(s.segments)) + s.tail == t[p..]
    decreases |t| - p
  {
    var s := Tokenize(t, p);
    match FindFrom(t, p)
    case None =>
    case Some(m) =>
      var rest := Tokenize(t, m.end);
      TokenizeRoundTrip(t, m.end);
      var seg := Segment(t[p..m.start], t[m.start..m.end], t[m.callStart..m.callEnd]);
      assert s == Split([seg] + rest.segments, rest.tail);
      FillSourcesCons(seg, rest.segments, rest.tail, t[m.end..]);
      SuffixSplit(t, p, m.start, m.end);
  }

  lemma FillSourcesCons(seg: Segment, segs: seq<Segment>, tail: string, after: string)
    requires Fill(segs, Sources(segs)) + tail == after
    ensures Fill([seg] + segs, Sources([seg] + segs)) + tail == seg.before + seg.source + after
  {
    assert ([seg] + segs)[1..] == segs;
    assert Sources([seg] + segs)[1..] == Sources(segs);
    var c := Fill(segs, Sources(segs));
    assert seg.before + seg.source + c + tail == seg.before + seg.source + (c + tail);
  }

  /** Every source is a whole placeholder around its call, and no text
      between placeholders holds a placeholder. */
  lemma {:induction false} TokenizePlaceholders(t: string, p: nat)
    requires p <= |t|
    ensures var s := Tokenize(t, p);
      && (forall i | 0 <= i < |s.segments| :: IsPlaceholder(s.segments[i].source, s.segments[i].call))
      && (forall i | 0 <= i < |s.segments| :: NoPlaceholder(s.segments[i].before))
      && NoPlaceholder(s.tail)
    decreases |t| - p
  {
    var s := Tokenize(t, p);
    FindFromSpec(t, p);
    match FindFrom(t, p)
    case None =>
      GapHasNoPlaceholder(t, p, |t|);
      assert t[p..|t|] == t[p..];
    case Some(m) =>
      var rest := Tokenize(t, m.end);
      TokenizePlaceholders(t, m.end);
      GapHasNoPlaceholder(t, p, m.start);
      SourceIsPlaceholder(t, m);
      forall i | 0 <= i < |s.segments|
        ensures IsPlaceholder(s.segments[i].source, s.segments[i].call)
        ensures NoPlaceholder(s.segments[i].before)
      {
        if i > 0 {
          assert s.segments[i] == rest.segments[i - 1];
        }
      }
  }

  /** The text a match covers is a placeholder on its own. */
  lemma SourceIsPlaceholder(t: string, m: Match)
    requires IsMatch(t, m)
    ensures IsPlaceholder(t[m.start..m.end], t[m.callStart..m.callEnd])
  {
    var src := t[m.start..m.end];
    var local := Shift(m, -m.start);
    assert Shift(local, m.start) == m;
    MatchShiftIn(t, m.start, m.end, local);
    SliceOfSlice(t, m.start, m.end, local.callStart, local.callEnd);
    assert IsMatch(src, local) && local.start == 0 && local.end == |src|;
  }

  lemma SliceOfSlice(t: string, a: int, b: int, c: int, d: int)
    requires 0 <= a <= b <= |t| && 0 <= c <= d <= b - a
    ensures t[a..b][c..d] == t[a + c..a + d]
  {
    assert forall j :: 0 <= j < d - c ==> t[a..b][c..d][j] == t[a + c + j];
  }

  /** When no match starts in `t[p..q]`, that slice holds no placeholder. */
  lemma GapHasNoPlaceholder(t: string, p: nat, q: nat)
    requires p <= q <= |t|
    requires forall j :: p <= j < q ==> MatchAt(t, j).None?
    ensures NoPlaceholder(t[p..q])
  {
    forall m ensures !IsMatch(t[p..q], m) {
      MatchShift(t, p, q, m);
      MatchAtComplete(t, Shift(m, p));
    }
  }

  /** `extract_function_names`: the capture group of every match, left to
      right. The pattern is a constant, so compiling it never fails and no
      error result is modelled. */
  function ExtractFunctionNames(t: string): (names: seq<string>)
    ensures forall i | 0 <= i < |names| :: IsCall(names[i])
  {
    var segs := Tokenize(t, 0).segments;
    forall i | 0 <= i < |segs| ensures IsCall(segs[i].call) {
      TokenizeCall(t, 0, i);
    }
    Calls(segs)
  }

  /** There are no names exactly when the text holds no placeholder. */
  lemma ExtractEmptyIff(t: string)
    ensures ExtractFunctionNames(t) == [] <==> NoPlaceholder(t)
  {
    TokenizePlaceholders(t, 0);
    FindFromSpec(t, 0);
    var s := Tokenize(t, 0);
    assert t[0..] == t;
    assert |ExtractFunctionNames(t)| == |s.segments|;
    forall m ensures IsMatch(t, m) ==> |s.segments| > 0 {
      FindFromLeftmost(t, 0, m);
    }
  }

  // ---- parse_function! ----

  const I64Min: int := -0x8000_0000_0000_0000
  const I64Max: int := 0x7FFF_FFFF_FFFF_FFFF

  /** `str::parse::<i64>`: an optional `+` or `-`, then at least one ASCII
      digit, the value within the 64-bit signed range. */
  function ParseI64(s: string): (r: Option<int>)
    ensures r.Some? ==> I64Min <= r.value <= I64Max
  {
    if |s| == 0 then None
    else
      var ds := if s[0] == '-' || s[0] == '+' then s[1..] else s;
      if |ds| == 0 || !AllDigits(ds) then None
      else
        var v: int := if s[0] == '-' then -(DecimalValue(ds) as int) else DecimalValue(ds);
        if I64Min <= v <= I64Max then Some(v) else None
  }

  /** The decimal text of `n`, with a `-` when it is negative. */
  function ShowInt(n: int): string {
    if n < 0 then "-" + Digits(-n) else Digits(n)
  }

  /** Every 64-bit value reads back from its decimal text, also with a `+`. */
  lemma ParseI64RoundTrip(n: int)
    requires I64Min <= n <= I64Max
    ensures ParseI64(ShowInt(n)) == Some(n)
    ensures n >= 0 ==> ParseI64("+" + Digits(n)) == Some(n)
  {
    if n < 0 {
      ParseNegative(-n);
    } else {
      ParseNonNegative(n);
    }
  }

  lemma ParseNegative(n: nat)
    requires 0 < n <= -I64Min
    ensures ParseI64("-" + Digits(n)) == Some(-(n as int))
  {
    DigitsRoundTrip(n);
    assert ("-" + Digits(n))[1..] == Digits(n);
  }

  lemma ParseNonNegative(n: nat)
    requires n <= I64Max
    ensures ParseI64(Digits(n)) == Some(n)
    ensures ParseI64("+" + Digits(n)) == Some(n)
  {
    DigitsRoundTrip(n);
    assert ("+" + Digits(n))[1..] == Digits(n);
    assert Digits(n)[0] != '-' && Digits(n)[0] != '+';
  }

  /** Values outside the 64-bit range, empty text and a lone sign are refused. */
  lemma ParseI64Refuses(n: nat)
    requires n > I64Max
    ensures ParseI64(Digits(n)) == None
    ensures ParseI64("") == None && ParseI64("-") == None && ParseI64("+") == None
  {
    DigitsRoundTrip(n);
  }

  /** Negative values below the 64-bit range are refused. */
  lemma ParseI64RefusesBelow(n: nat)
    requires n > -I64Min
    ensures ParseI64("-" + Digits(n)) == None
  {
    DigitsRoundTrip(n);
    assert ("-" + Digits(n))[1..] == Digits(n);
  }

  /** A text without a single digit is refused. */
  lemma ParseI64NeedsDigits(s: string)
    requires forall i | 0 <= i < |s| :: !IsDigit(s[i])
    ensures ParseI64(s) == None
  {
    if |s| > 1 {
      var ds := if s[0] == '-' || s[0] == '+' then s[1..] else s;
      assert ds[0] == s[0] || ds[0] == s[1];
      assert !IsDigit(ds[0]);
    }
  }

  /** `v` is the date `d` days before `today`. */
  predicate IsDaysBefore(v: string, today: int, d: int) {
    0 <= d && Dates.InRange(today - d) && v == Dates.FormatDate(today - d)
  }

  /** `v` is today's date or an earlier one. */
  ghost predicate IsPastDate(v: string, today: int) {
    exists d :: IsDaysBefore(v, today, d)
  }

  /** `current_date()`: today as YYYY-MM-DD, that is, for the years 0 to
      9999 text that reads back as a calendar date whose day number is
      today. */
  function CurrentDate(today: int): (r: string)
    requires Dates.InRange(today)
    ensures IsDaysBefore(r, today, 0)
    ensures 0 <= Dates.CivilFromDays(today).year <= 9999 ==>
      && Dates.IsDateText(r)
      && Dates.ReadDate(r).Some?
      && Dates.ValidCivil(Dates.ReadDate(r).value)
      && Dates.DaysFromCivil(Dates.ReadDate(r).value) == today
  {
    Dates.CivilFromDaysValid(today);
    Dates.CivilRoundTrip(today);
    if 0 <= Dates.CivilFromDays(today).year <= 9999 then
      Dates.FormatDateReadsBack(today);
      Dates.FormatDate(today)
    else
      Dates.FormatDate(today)
  }

  /** chrono's `Duration::days` accepts at most this many days; more panics. */
  const MaxDurationDays: int := 106751991167

  /** `few_date_ago` as it would be without the panic: a negative count and a
      date before the calendar's start are errors, everything else is the
      date `days` days before today. */
  function FewDateAgo(days: int, today: int): (r: Result<string>)
    requires Dates.InRange(today)
    ensures r.Ok? <==> 0 <= days && Dates.InRange(today - days)
    ensures r.Ok? ==> IsDaysBefore(r.value, today, days)
    ensures days < 0 ==> r == Err(PipelineError("days must be non-negative"))
    ensures 0 <= days && !Dates.InRange(today - days) ==> r == Err(PipelineError("date out of range"))
  {
    if days < 0 then Err(PipelineError("days must be non-negative"))
    else if today - days < Dates.MinDay then Err(PipelineError("date out of range"))
    else Ok(Dates.FormatDate(today - days))
  }

  /** How a call can end: with a result, or with a panic. */
  datatype Outcome = Returned(result: Result<string>) | Panicked

  /** `few_date_ago` as written: `Duration::days(days)` is built before the
      checked subtraction, and it panics when `days` is too large. */
  function FewDateAgoAsWritten(days: int, today: int): (o: Outcome)
    requires Dates.InRange(today)
    ensures o.Panicked? <==> days > MaxDurationDays
  {
    if days < 0 then Returned(Err(PipelineError("days must be non-negative")))
    else if days > MaxDurationDays then Panicked
    else if today - days < Dates.MinDay then Returned(Err(PipelineError("date out of range")))
    else Returned(Ok(Dates.FormatDate(today - days)))
  }

  /** Up to chrono's duration limit the two agree. */
  lemma FewDateAgoAgrees(days: int, today: int)
    requires Dates.InRange(today)
    ensures days <= MaxDurationDays ==> FewDateAgoAsWritten(days, today) == Returned(FewDateAgo(days, today))
  {
  }

  /** One day more than the limit: the written code panics where an error was
      evidently meant, since no such date exists. */
  lemma FewDateAgoPanics(today: int)
    requires Dates.InRange(today)
    ensures FewDateAgoAsWritten(MaxDurationDays + 1, today) == Panicked
    ensures FewDateAgo(MaxDurationDays + 1, today) == Err(PipelineError("date out of range"))
  {
    DayRangeBounds();
  }

  /** The calendar spans well under a billion days either side of 1970. */
  lemma DayRangeBounds()
    ensures -100_000_000 < Dates.MinDay < 0 < Dates.MaxDay < 100_000_000
  {
  }

  const CurrentDateCall: string := "current_date()"
  const FewDateAgoOpen: string := "few_date_ago("

  predicate EndsWith(s: string, suffix: string) {
    |suffix| <= |s| && s[|s| - |suffix|..] == suffix
  }

  /** `parse_function!`: evaluate one capture group. Every successful call
      yields today's date or an earlier one; every failure is a pipeline error. */
  function ParseFunction(input: string, today: int): (r: Result<string>)
    requires Dates.InRange(today)
    ensures r.Ok? ==> IsPastDate(r.value, today)
    ensures r.Err? ==> r.error.PipelineError?
  {
    if input == CurrentDateCall then
      Ok(CurrentDate(today))
    else if StartsWith(input, FewDateAgoOpen) && EndsWith(input, ")") then
      assert input[12] == input[..13][12];
      var arg := input[13..|input| - 1];
      match ParseI64(arg)
      case None => Err(PipelineError("Invalid argument: " + arg))
      case Some(days) => FewDateAgo(days, today)
    else
      Err(PipelineError("Unknown function: " + input))
  }

  /** `few_date_ago(arg)` reads `arg` as a 64-bit integer: text that does not
      read is refused, a number goes on to `FewDateAgo`. */
  lemma DispatchFewDateAgo(arg: string, today: int)
    requires Dates.InRange(today)
    ensures ParseFunction(FewDateAgoOpen + arg + ")", today)
         == if ParseI64(arg).None? then Err(PipelineError("Invalid argument: " + arg))
            else FewDateAgo(ParseI64(arg).value, today)
  {
    var input := FewDateAgoOpen + arg + ")";
    assert input[..13] == FewDateAgoOpen;
    assert input[13..|input| - 1] == arg;
    assert input != CurrentDateCall by { assert input[0] != CurrentDateCall[0]; }
  }

  /** `few_date_ago(n)` with `n` written in decimal is the date `n` days back. */
  lemma ParseFewDateAgo(n: nat, today: int)
    requires n <= I64Max && Dates.InRange(today)
    ensures ParseFunction(FewDateAgoOpen + Digits(n) + ")", today) == FewDateAgo(n, today)
  {
    assert Digits(n) == ShowInt(n);
    ParseI64RoundTrip(n);
    DispatchFewDateAgo(Digits(n), today);
  }

  /** With the clock fixed, `few_date_ago(0)` and `current_date()` give the
      same text. */
  lemma ZeroDaysAgoIsToday(today: int)
    requires Dates.InRange(today)
    ensures ParseFunction("few_date_ago(0)", today) == ParseFunction(CurrentDateCall, today)
    ensures ParseFunction(CurrentDateCall, today) == Ok(Dates.FormatDate(today))
  {
    ParseFewDateAgo(0, today);
    assert Digits(0) == "0";
    assert FewDateAgoOpen + Digits(0) + ")" == "few_date_ago(0)";
  }

  /** A negative count is read and then refused. */
  lemma ParseFewDateAgoNegative(n: nat, today: int)
    requires 0 < n <= -I64Min && Dates.InRange(today)
    ensures ParseFunction(FewDateAgoOpen + "-" + Digits(n) + ")", today) == Err(PipelineError("days must be non-negative"))
  {
    var arg := "-" + Digits(n);
    NegativeReads(n);
    DispatchFewDateAgo(arg, today);
    AppendAssoc(FewDateAgoOpen, "-", Digits(n), ")");
  }

  lemma NegativeReads(n: nat)
    requires 0 < n <= -I64Min
    ensures ParseI64("-" + Digits(n)) == Some(-(n as int))
  {
    assert "-" + Digits(n) == ShowInt(-(n as int));
    ParseI64RoundTrip(-(n as int));
  }

  lemma AppendAssoc(a: string, b: string, c: string, d: string)
    ensures a + b + c + d == a + (b + c) + d
  {
  }

  /** The identifier of a call: the text before its `(`. */
  function CallName(n: string): string
    requires IsCall(n)
  {
    var k :| 0 <= k < |n| && CallShape(n, 0, k, |n|);
    n[..k]
  }

  /** Only `current_date` and `few_date_ago` evaluate; any other function is
      refused with its whole call in the message. */
  lemma OnlyKnownFunctions(n: string, today: int)
    requires IsCall(n) && Dates.InRange(today)
    ensures n != CurrentDateCall && CallName(n) != "few_date_ago"
      ==> ParseFunction(n, today) == Err(PipelineError("Unknown function: " + n))
  {
    if n != CurrentDateCall && StartsWith(n, FewDateAgoOpen) {
      FewDateAgoName(n);
    }
  }

  /** The `(` of a call is the first one, so it fixes the name. */
  lemma CallNameAt(n: string, k: int)
    requires CallShape(n, 0, k, |n|)
    ensures IsCall(n) && CallName(n) == n[..k]
  {
    forall k2 | 0 <= k2 < |n| && CallShape(n, 0, k2, |n|) ensures k2 == k {
      assert !IsIdentChar('(');
    }
  }

  lemma FewDateAgoName(n: string)
    requires IsCall(n) && StartsWith(n, FewDateAgoOpen)
    ensures CallName(n) == "few_date_ago"
  {
    assert n[..13] == FewDateAgoOpen;
    assert CallShape(n, 0, 12, |n|) by {
      forall j | 0 < j < 12 ensures IsIdentChar(n[j]) {
        assert n[j] == FewDateAgoOpen[j];
      }
    }
    CallNameAt(n, 12);
    assert n[..12] == "few_date_ago";
  }

  // ---- substitute_templates ----

  /** How a call evaluates: `parse_function!` on the day `today`. */
  function Evaluator(today: int): string -> Result<string>
    requires Dates.InRange(today)
  {
    call => ParseFunction(call, today)
  }

  /** Evaluate the calls left to right, stopping at the first error. */
  function EvalSegments(segs: seq<Segment>, eval: string -> Result<string>): Result<string>
  {
    if |segs| == 0 then Ok("")
    else
      match eval(segs[0].call)
      case Err(e) => Err(e)
      case Ok(v) =>
        match EvalSegments(segs[1..], eval)
        case Err(e) => Err(e)
        case Ok(rest) => Ok(segs[0].before + v + rest)
  }

  /** `substitute_templates`: every placeholder is replaced by its call's
      value; the first call that fails is the result and no text is produced. */
  function SubstituteTemplates(t: string, today: int): (r: Result<string>)
    requires Dates.InRange(today)
    ensures r.Err? ==> r.error.PipelineError?
  {
    var s := Tokenize(t, 0);
    var eval := Evaluator(today);
    EvalSegmentsErr(s.segments, eval);
    match EvalSegments(s.segments, eval)
    case Err(e) => Err(e)
    case Ok(body) => Ok(body + s.tail)
  }

  /** Every call evaluates. */
  predicate AllEvaluate(calls: seq<string>, eval: string -> Result<string>) {
    forall i | 0 <= i < |calls| :: eval(calls[i]).Ok?
  }

  /** The values of calls that all evaluate, in order. */
  function Values(calls: seq<string>, eval: string -> Result<string>): (r: seq<string>)
    requires AllEvaluate(calls, eval)
    ensures |r| == |calls|
    decreases |calls|
  {
    if |calls| == 0 then []
    else
      AllEvaluateCons(calls, eval);
      [eval(calls[0]).value] + Values(calls[1..], eval)
  }

  /** `e` is the error of the leftmost call that fails. */
  ghost predicate FirstError(calls: seq<string>, eval: string -> Result<string>, e: ApitapError) {
    exists i :: 0 <= i < |calls| && eval(calls[i]) == Err(e)
      && forall j :: 0 <= j < i ==> eval(calls[j]).Ok?
  }

  lemma AllEvaluateCons(calls: seq<string>, eval: string -> Result<string>)
    requires |calls| > 0
    ensures AllEvaluate(calls, eval) <==> eval(calls[0]).Ok? && AllEvaluate(calls[1..], eval)
  {
    if eval(calls[0]).Ok? && AllEvaluate(calls[1..], eval) {
      forall i | 0 < i < |calls| ensures eval(calls[i]).Ok? {
        assert calls[i] == calls[1..][i - 1];
      }
    }
  }

  /** The calls all evaluate exactly when the segments do, and then the
      result is the texts with the values in between. */
  lemma EvalSegmentsOk(segs: seq<Segment>, eval: string -> Result<string>)
    ensures var r := EvalSegments(segs, eval);
      && (r.Ok? <==> AllEvaluate(Calls(segs), eval))
      && (r.Ok? ==> r.value == Fill(segs, Values(Calls(segs), eval)))
  {
    EvalSegmentsOkIff(segs, eval);
    if EvalSegments(segs, eval).Ok? {
      EvalSegmentsValue(segs, eval);
    }
  }

  lemma {:induction false} EvalSegmentsOkIff(segs: seq<Segment>, eval: string -> Result<string>)
    ensures EvalSegments(segs, eval).Ok? <==> AllEvaluate(Calls(segs), eval)
  {
    if |segs| > 0 {
      EvalSegmentsOkIff(segs[1..], eval);
      assert Calls(segs[1..]) == Calls(segs)[1..];
      AllEvaluateCons(Calls(segs), eval);
    }
  }

  lemma {:induction false} EvalSegmentsValue(segs: seq<Segment>, eval: string -> Result<string>)
    requires AllEvaluate(Calls(segs), eval)
    ensures EvalSegments(segs, eval).Ok?
    ensures EvalSegments(segs, eval).value == Fill(segs, Values(Calls(segs), eval))
  {
    EvalSegmentsOkIff(segs, eval);
    if |segs| > 0 {
      var calls := Calls(segs);
      var tail := segs[1..];
      assert Calls(tail) == calls[1..];
      AllEvaluateCons(calls, eval);
      EvalSegmentsValue(tail, eval);
    }
  }

  /** A failure is the error of the leftmost call that fails. */
  lemma {:induction false} EvalSegmentsErr(segs: seq<Segment>, eval: string -> Result<string>)
    ensures var r := EvalSegments(segs, eval); r.Err? ==> FirstError(Calls(segs), eval, r.error)
  {
    if |segs| > 0 {
      var calls := Calls(segs);
      var tail := segs[1..];
      EvalSegmentsErr(tail, eval);
      assert Calls(tail) == calls[1..];
      if eval(calls[0]).Ok? && EvalSegments(tail, eval).Err? {
        var e := EvalSegments(tail, eval).error;
        var i :| 0 <= i < |calls[1..]| && eval(calls[1..][i]) == Err(e)
          && forall j :: 0 <= j < i ==> eval(calls[1..][j]).Ok?;
        assert eval(calls[i + 1]) == Err(e);
        forall j | 0 <= j < i + 1 ensures eval(calls[j]).Ok? {
          if j > 0 {
            assert calls[j] == calls[1..][j - 1];
          }
        }
      }
    }
  }

  /** The text is its gaps and placeholders (`TokenizeRoundTrip`); the result
      is the same gaps with each placeholder's value in its place when every
      name evaluates, and otherwise the error of the leftmost name that fails. */
  lemma SubstituteTemplatesSpec(t: string, today: int)
    requires Dates.InRange(today)
    ensures var names := ExtractFunctionNames(t);
      var s := Tokenize(t, 0);
      var r := SubstituteTemplates(t, today);
      && (r.Ok? <==> AllEvaluate(names, Evaluator(today)))
      && (r.Ok? ==> r.value == Fill(s.segments, Values(names, Evaluator(today))) + s.tail)
      && (r.Err? ==> FirstError(names, Evaluator(today), r.error))
  {
    EvalSegmentsOk(Tokenize(t, 0).segments, Evaluator(today));
    EvalSegmentsErr(Tokenize(t, 0).segments, Evaluator(today));
  }

  /** A text without placeholders comes back unchanged. (That a successful
      result differs from its input only where a placeholder stood is
      `SubstituteTemplatesSpec`.) */
  lemma SubstituteNoPlaceholder(t: string, today: int)
    requires Dates.InRange(today)
    ensures NoPlaceholder(t) ==> SubstituteTemplates(t, today) == Ok(t)
  {
    ExtractEmptyIff(t);
    TokenizeRoundTrip(t, 0);
    assert t[0..] == t;
  }

  /** A text in which no `{` is followed by another holds no placeholder. */
  lemma NoOpeningNoPlaceholder(t: string)
    requires forall i :: 0 <= i < |t| - 1 ==> t[i] != '{' || t[i + 1] != '{'
    ensures NoPlaceholder(t)
  {
  }

  /** A text that only looks like an environment variable is left alone. */
  lemma SubstituteEnvLookalike(today: int)
    requires Dates.InRange(today)
    ensures SubstituteTemplates("${TOKEN}", today) == Ok("${TOKEN}")
  {
    var t := "${TOKEN}";
    assert t[1] == '{' && t[2] == 'T';
    forall i | 0 <= i < |t| - 1 && i != 1 ensures t[i] != '{' {
    }
    NoOpeningNoPlaceholder(t);
    SubstituteNoPlaceholder(t, today);
  }

  /** A text with no braces yields no names. */
  lemma ExtractPlainText()
    ensures ExtractFunctionNames("asoi") == []
  {
    var t := "asoi";
    forall m ensures !IsMatch(t, m) {
      if 0 <= m.start < |t| {
        assert t[m.start] != '{';
      }
    }
    ExtractEmptyIff(t);
  }

  /** A negative count inside a placeholder makes the whole substitution fail. */
  lemma SubstituteNegativeFails(today: int)
    requires Dates.InRange(today)
    ensures SubstituteTemplates("{{ few_date_ago(-1) }}", today) == Err(PipelineError("days must be non-negative"))
  {
    NegativeExampleName();
    NegativeCallFails(today);
    FirstCallFails("{{ few_date_ago(-1) }}", today);
  }

  lemma NegativeCallFails(today: int)
    requires Dates.InRange(today)
    ensures ParseFunction("few_date_ago(-1)", today) == Err(PipelineError("days must be non-negative"))
  {
    ParseFewDateAgoNegative(1, today);
    assert FewDateAgoOpen + "-" + Digits(1) + ")" == "few_date_ago(-1)";
  }

  /** When the first call fails, its error is the result. */
  lemma FirstCallFails(t: string, today: int)
    requires Dates.InRange(today)
    ensures var names := ExtractFunctionNames(t);
      |names| > 0 && ParseFunction(names[0], today).Err?
      ==> SubstituteTemplates(t, today) == Err(ParseFunction(names[0], today).error)
  {
  }

  lemma NegativeExampleName()
    ensures ExtractFunctionNames("{{ few_date_ago(-1) }}") == ["few_date_ago(-1)"]
  {
    NegativeExampleFind();
    WholeTextMatch("{{ few_date_ago(-1) }}", Match(0, 22, 3, 15, 19));
    NegativeExampleCall();
  }

  lemma NegativeExampleCall()
    ensures "{{ few_date_ago(-1) }}"[3..19] == "few_date_ago(-1)"
  {
  }

  /** A text that is one placeholder has just that one name. */
  lemma WholeTextMatch(t: string, m: Match)
    requires FindFrom(t, 0) == Some(m) && m.end == |t|
    ensures ExtractFunctionNames(t) == [t[m.callStart..m.callEnd]]
  {
    assert MatchAt(t, |t|) == None;
    assert Tokenize(t, |t|) == Split([], []);
  }

  lemma NegativeExampleFind()
    ensures FindFrom("{{ few_date_ago(-1) }}", 0) == Some(Match(0, 22, 3, 15, 19))
  {
    NegativeExampleMatch();
    MatchAtComplete("{{ few_date_ago(-1) }}", Match(0, 22, 3, 15, 19));
  }

  lemma NegativeExampleMatch()
    ensures IsMatch("{{ few_date_ago(-1) }}", Match(0, 22, 3, 15, 19))
  {
    NegativeExampleIdent();
  }

  lemma NegativeExampleIdent()
    ensures forall j | 3 < j < 15 :: IsIdentChar("{{ few_date_ago(-1) }}"[j])
  {
    var t := "{{ few_date_ago(-1) }}";
    assert t[3..15] == "few_date_ago";
    forall j | 3 < j < 15 ensures IsIdentChar(t[j]) {
      assert t[j] == "few_date_ago"[j - 3];
    }
  }
}
