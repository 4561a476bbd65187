/**
 * The signature preprocessor: it turns a pasted signature block into the ordered
 * tokens the detectors are offered.  Lines are stripped; blank lines and
 * quoting or forwarding noise are dropped; pronoun annotations such as
 * "(she/her)" are cut out; what remains is split on bullet, middle-dot, pipe,
 * en-dash and em-dash characters, and every non-blank stripped piece becomes a
 * token.
 */
module Signature {
  import opened Wrappers
  import opened Text

  // ---------------------------------------------------------------------------
  // Separators: the character class [•·|–—]

  predicate IsSeparator(c: char)
  {
    c == '\U{2022}' || c == '\U{00B7}' || c == '|' || c == '\U{2013}' || c == '\U{2014}'
  }

  predicate HasSeparator(s: string)
  {
    exists c :: c in s && IsSeparator(c)
  }

  /** `s` with every separator character removed. */
  function WithoutSeparators(s: string): string
  {
    if s == [] then [] else (if IsSeparator(s[0]) then [] else [s[0]]) + WithoutSeparators(s[1..])
  }

  function SeparatorCount(s: string): nat
  {
    if s == [] then 0 else (if IsSeparator(s[0]) then 1 else 0) + SeparatorCount(s[1..])
  }

  function Concat(parts: seq<string>): string
  {
    if parts == [] then [] else parts[0] + Concat(parts[1..])
  }

  /** `re.split(SEPARATORS, s)`: the pieces between separator characters, in order. */
  function Parts(s: string): (ps: seq<string>)
    ensures |ps| >= 1
    ensures forall k :: 0 <= k < |ps| ==> !HasSeparator(ps[k])
  {
    if s == [] then [[]]
    else
      var rest := Parts(s[1..]);
      if IsSeparator(s[0]) then [[]] + rest
      else
        assert forall c :: c in [s[0]] + rest[0] ==> c == s[0] || c in rest[0];
        [[s[0]] + rest[0]] + rest[1..]
  }

  /**
   * Splitting loses exactly the separators: there is one more piece than there
   * are separators, and the pieces put back together give `s` without them.
   */
  lemma {:induction false} PartsCoverInput(s: string)
    ensures |Parts(s)| == SeparatorCount(s) + 1
    ensures Concat(Parts(s)) == WithoutSeparators(s)
  {
    if s != [] {
      PartsCoverInput(s[1..]);
      var rest := Parts(s[1..]);
      if !IsSeparator(s[0]) {
        assert Concat(Parts(s)) == [s[0]] + rest[0] + Concat(rest[1..]);
        assert Concat(rest) == rest[0] + Concat(rest[1..]);
      }
    }
  }

  /** The separator characters of `s`, in order, each as a one-character string. */
  function Separators(s: string): (seps: seq<string>)
    ensures forall k :: 0 <= k < |seps| ==> |seps[k]| == 1 && IsSeparator(seps[k][0])
  {
    if s == [] then []
    else (if IsSeparator(s[0]) then [[s[0]]] else []) + Separators(s[1..])
  }

  /**
   * The cuts fall exactly at the separators: `s` is the pieces interleaved
   * with its separator characters in order.  As no piece holds a separator,
   * this fixes every piece.
   */
  lemma {:induction false} PartsInterleave(s: string)
    ensures |Parts(s)| == |Separators(s)| + 1
    ensures s == Interleave(Parts(s), Separators(s))
  {
    if s != [] {
      PartsInterleave(s[1..]);
      if IsSeparator(s[0]) {
        InterleaveAtSeparator(s);
      } else {
        InterleaveAtPlain(s);
      }
    }
  }

  /** A leading separator closes an empty first piece. */
  lemma InterleaveAtSeparator(s: string)
    requires s != [] && IsSeparator(s[0])
    requires |Parts(s[1..])| == |Separators(s[1..])| + 1
    requires s[1..] == Interleave(Parts(s[1..]), Separators(s[1..]))
    ensures |Parts(s)| == |Separators(s)| + 1
    ensures s == Interleave(Parts(s), Separators(s))
  {
    var rest, seps := Parts(s[1..]), Separators(s[1..]);
    var ps, ss := Parts(s), Separators(s);
    UnfoldAtSeparator(s);
    assert ps[0] == [] && ps[1..] == rest;
    assert ss[0] == [s[0]] && ss[1..] == seps;
    assert Interleave(ps, ss) == ps[0] + ss[0] + Interleave(ps[1..], ss[1..]);
    assert s == [s[0]] + s[1..];
  }

  lemma UnfoldAtSeparator(s: string)
    requires s != [] && IsSeparator(s[0])
    ensures Parts(s) == [[]] + Parts(s[1..])
    ensures Separators(s) == [[s[0]]] + Separators(s[1..])
  {
  }

  /** A leading plain character joins the first piece. */
  lemma InterleaveAtPlain(s: string)
    requires s != [] && !IsSeparator(s[0])
    requires |Parts(s[1..])| == |Separators(s[1..])| + 1
    requires s[1..] == Interleave(Parts(s[1..]), Separators(s[1..]))
    ensures |Parts(s)| == |Separators(s)| + 1
    ensures s == Interleave(Parts(s), Separators(s))
  {
    var rest, seps := Parts(s[1..]), Separators(s[1..]);
    assert Parts(s) == [[s[0]] + rest[0]] + rest[1..];
    assert Separators(s) == [] + seps == seps;
    InterleaveExtendFirst([s[0]], rest, seps);
    assert s == [s[0]] + s[1..];
  }

  /** Prefixing the first gap prefixes the interleaving. */
  lemma InterleaveExtendFirst(x: string, gaps: seq<string>, words: seq<string>)
    requires |gaps| == |words| + 1
    ensures Interleave([x + gaps[0]] + gaps[1..], words) == x + Interleave(gaps, words)
  {
    var g := [x + gaps[0]] + gaps[1..];
    assert g[0] == x + gaps[0] && g[1..] == gaps[1..];
  }

  /** A string without separators is its own single piece. */
  lemma {:induction false} PartsOfPlain(s: string)
    requires !HasSeparator(s)
    ensures Parts(s) == [s]
  {
    if s != [] {
      assert !HasSeparator(s[1..]) by {
        forall c | c in s[1..] ensures !IsSeparator(c) { assert c in s; }
      }
      PartsOfPlain(s[1..]);
      assert s[0] in s;
      assert [s[0]] + s[1..] == s;
    }
  }

  // ---------------------------------------------------------------------------
  // Noise lines: `NOISE_PATTERNS`, each matched at the start of a line,
  // ignoring ASCII case.  Lines never hold a newline, so `.` matches anything.

  datatype NoisePattern =
    | QuotedReply            // ^>.*$
    | ForwardedHeader        // ^On .* wrote:$
    | OriginalMessageBanner  // ^-+\s*Original Message\s*-+$
    | HeaderLine(name: string)  // ^From:.*$ and its three siblings

  const NoisePatterns: seq<NoisePattern> := [
    QuotedReply, ForwardedHeader, OriginalMessageBanner,
    HeaderLine("from:"), HeaderLine("sent:"), HeaderLine("to:"), HeaderLine("subject:")
  ]

  /** `s` begins with the lower-case literal `lit`, ignoring case. */
  predicate StartsWithCI(s: string, lit: string)
  {
    |lit| <= |s| && Lower(s[..|lit|]) == lit
  }

  /** `s` ends with the lower-case literal `lit`, ignoring case. */
  predicate EndsWithCI(s: string, lit: string)
  {
    |lit| <= |s| && Lower(s[|s| - |lit|..]) == lit
  }

  /** Length of the run of '-' at the head of `s`. */
  function DashRun(s: string): (n: nat)
    ensures n <= |s|
    ensures forall i :: 0 <= i < n ==> s[i] == '-'
    ensures n < |s| ==> s[n] != '-'
  {
    if s != [] && s[0] == '-' then 1 + DashRun(s[1..]) else 0
  }

  predicate AllDashes(s: string)
  {
    forall i :: 0 <= i < |s| ==> s[i] == '-'
  }

  /** `\s*-+$`: optional whitespace, then one or more dashes to the end. */
  predicate ClosingDashes(t: string)
  {
    var tail := StripLeft(t);
    tail != [] && AllDashes(tail)
  }

  /** `Original Message\s*-+$`, ignoring ASCII case. */
  predicate BannerBody(body: string)
  {
    StartsWithCI(body, "original message") && ClosingDashes(body[16..])
  }

  /**
   * `^-+\s*Original Message\s*-+$`.  Dashes are neither whitespace nor letters,
   * so each run in the pattern can be taken as long as possible.
   */
  predicate IsBanner(line: string)
  {
    var n := DashRun(line);
    n >= 1 && BannerBody(StripLeft(line[n..]))
  }

  predicate NoiseMatches(p: NoisePattern, line: string)
  {
    match p
    case QuotedReply => line != [] && line[0] == '>'
    case ForwardedHeader => |line| >= 10 && StartsWithCI(line, "on ") && EndsWithCI(line, " wrote:")
    case OriginalMessageBanner => IsBanner(line)
    case HeaderLine(name) => StartsWithCI(line, name)
  }

  predicate IsNoise(line: string)
  {
    exists k :: 0 <= k < |NoisePatterns| && NoiseMatches(NoisePatterns[k], line)
  }

  lemma StripLeftOfSpaces(w: string, s: string)
    requires AllSpace(w)
    requires s == [] || !IsSpace(s[0])
    ensures StripLeft(w + s) == s
  {
    if w != [] {
      assert (w + s)[1..] == w[1..] + s;
      StripLeftOfSpaces(w[1..], s);
    }
  }

  lemma DashRunOf(d: string, s: string)
    requires AllDashes(d)
    requires s == [] || s[0] != '-'
    ensures DashRun(d + s) == |d|
  {
    if d != [] {
      assert (d + s)[1..] == d[1..] + s;
      DashRunOf(d[1..], s);
    }
  }

  lemma ClosingDashesOf(w: string, d: string)
    requires AllSpace(w) && d != [] && AllDashes(d)
    ensures ClosingDashes(w + d)
  {
    StripLeftOfSpaces(w, d);
  }

  lemma BannerBodyOf(m: string, rest: string)
    requires |m| == 16 && Lower(m) == "original message" && ClosingDashes(rest)
    ensures BannerBody(m + rest)
  {
    assert (m + rest)[..16] == m;
    assert (m + rest)[16..] == rest;
  }

  /**
   * Every line of the banner's shape, dashes, optional whitespace, "Original
   * Message" in any ASCII case, optional whitespace, dashes, is a banner.
   */
  lemma BannerComplete(d1: string, w1: string, m: string, w2: string, d2: string)
    requires d1 != [] && AllDashes(d1) && AllSpace(w1)
    requires |m| == 16 && Lower(m) == "original message"
    requires AllSpace(w2) && d2 != [] && AllDashes(d2)
    ensures IsBanner(d1 + w1 + m + w2 + d2)
  {
    ClosingDashesOf(w2, d2);
    var body := m + (w2 + d2);
    BannerBodyOf(m, w2 + d2);
    assert body[0] == m[0];
    assert m[0] == 'o' || m[0] == 'O' by { assert Lower(m)[0] == LowerChar(m[0]); }
    var afterDashes := w1 + body;
    assert afterDashes != [] && afterDashes[0] != '-' by {
      if w1 != [] { assert afterDashes[0] == w1[0]; } else { assert afterDashes[0] == body[0]; }
    }
    assert d1 + w1 + m + w2 + d2 == d1 + afterDashes;
    DashRunOf(d1, afterDashes);
    assert (d1 + afterDashes)[|d1|..] == afterDashes;
    StripLeftOfSpaces(w1, body);
  }

  /** `StripLeft` removes a whitespace prefix. */
  lemma StripLeftSplits(s: string) returns (w: string)
    ensures s == w + StripLeft(s) && AllSpace(w)
  {
    var r := StripLeft(s);
    StripLeftSpec(s);
    w := s[..|s| - |r|];
    assert s == w + r;
  }

  lemma ClosingDashesSound(t: string) returns (w: string, d: string)
    requires ClosingDashes(t)
    ensures t == w + d && AllSpace(w) && d != [] && AllDashes(d)
  {
    w := StripLeftSplits(t);
    d := StripLeft(t);
  }

  lemma BannerBodySound(body: string) returns (m: string, w: string, d: string)
    requires BannerBody(body)
    ensures body == m + (w + d)
    ensures |m| == 16 && Lower(m) == "original message"
    ensures AllSpace(w) && d != [] && AllDashes(d)
  {
    m := body[..16];
    w, d := ClosingDashesSound(body[16..]);
    assert body == m + body[16..];
  }

  /** Conversely, every banner has that shape. */
  lemma BannerSound(line: string) returns (d1: string, w1: string, m: string, w2: string, d2: string)
    requires IsBanner(line)
    ensures line == d1 + w1 + m + w2 + d2
    ensures d1 != [] && AllDashes(d1) && AllSpace(w1)
    ensures |m| == 16 && Lower(m) == "original message"
    ensures AllSpace(w2) && d2 != [] && AllDashes(d2)
  {
    var n := DashRun(line);
    d1 := line[..n];
    var rest := line[n..];
    assert line == d1 + rest;
    w1 := StripLeftSplits(rest);
    m, w2, d2 := BannerBodySound(StripLeft(rest));
    assert line == d1 + (w1 + (m + (w2 + d2)));
    Reassociate(d1, w1, m, w2, d2);
  }

  lemma Reassociate(a: string, b: string, c: string, d: string, e: string)
    ensures a + (b + (c + (d + e))) == a + b + c + d + e
  {
  }

  // ---------------------------------------------------------------------------
  // Pronouns: `re.sub(r'\s*\([^)]*(?:he|she|they|him|her|them)[^)]*\)\s*', '', line)`

  const PronounAlternatives: seq<string> := ["he", "she", "they", "him", "her", "them"]

  /** The text of a parenthetical group mentions a pronoun, ignoring case. */
  predicate MentionsPronoun(group: string)
  {
    exists k :: 0 <= k < |PronounAlternatives| && Contains(Lower(group), PronounAlternatives[k])
  }

  lemma ContainsInner(s: string, big: string, a: nat, small: string)
    requires Contains(s, big)
    requires a + |small| <= |big| && big[a..a + |small|] == small
    ensures Contains(s, small)
  {
    var i: nat :| i <= |s| && OccursAt(s, big, i);
    forall j | 0 <= j < |small| ensures s[i + a..i + a + |small|][j] == small[j] {
      assert s[i..i + |big|][a + j] == big[a..a + |small|][j];
    }
    assert OccursAt(s, small, i + a);
  }

  /**
   * Four of the six alternatives contain "he", so a group mentions a pronoun
   * exactly when its lower-cased text contains "he" or "him".
   */
  lemma PronounAlternativesReduce(group: string)
    ensures MentionsPronoun(group) <==> Contains(Lower(group), "he") || Contains(Lower(group), "him")
  {
    var g := Lower(group);
    if MentionsPronoun(group) {
      var k :| 0 <= k < |PronounAlternatives| && Contains(g, PronounAlternatives[k]);
      if k == 1 {
        assert "she"[1..3] == "he";
        ContainsInner(g, "she", 1, "he");
      } else if k == 2 {
        assert "they"[1..3] == "he";
        ContainsInner(g, "they", 1, "he");
      } else if k == 4 {
        assert "her"[0..2] == "he";
        ContainsInner(g, "her", 0, "he");
      } else if k == 5 {
        assert "them"[1..3] == "he";
        ContainsInner(g, "them", 1, "he");
      }
    }
    if Contains(g, "him") { assert PronounAlternatives[3] == "him"; }
    if Contains(g, "he") { assert PronounAlternatives[0] == "he"; }
  }

  /** The first index at or after `i` whose character is not whitespace (or the end). */
  function SkipSpaces(s: string, i: nat): (j: nat)
    requires i <= |s|
    decreases |s| - i
    ensures i <= j <= |s|
    ensures forall k :: i <= k < j ==> IsSpace(s[k])
    ensures j < |s| ==> !IsSpace(s[j])
  {
    if i < |s| && IsSpace(s[i]) then SkipSpaces(s, i + 1) else i
  }

  /** The index of the first ')' at or after `i`. */
  function NextClose(s: string, i: nat): (r: Option<nat>)
    requires i <= |s|
    decreases |s| - i
    ensures r.Some? ==> i <= r.value < |s| && s[r.value] == ')'
    ensures r.Some? ==> forall k :: i <= k < r.value ==> s[k] != ')'
    ensures r.None? ==> forall k :: i <= k < |s| ==> s[k] != ')'
  {
    if i == |s| then None else if s[i] == ')' then Some(i) else NextClose(s, i + 1)
  }

  /**
   * Where a pronoun match that starts at `p` ends: optional whitespace, '(' , a
   * group without ')' that mentions a pronoun, ')' and optional whitespace.
   * Each run is taken as long as the pattern allows, as the regex engine does.
   */
  function PronounMatchAt(s: string, p: nat): (e: Option<nat>)
    requires p <= |s|
    ensures e.Some? ==> p < e.value <= |s|
  {
    var q := SkipSpaces(s, p);
    if q < |s| && s[q] == '(' then
      match NextClose(s, q + 1)
      case None => None
      case Some(r) => if MentionsPronoun(s[q + 1..r]) then Some(SkipSpaces(s, r + 1)) else None
    else None
  }

  /** The text of `s` from `i` on with every pronoun match cut out, scanning left to right. */
  function RemovePronounsFrom(s: string, i: nat): string
    requires i <= |s|
    decreases |s| - i
  {
    if i == |s| then []
    else match PronounMatchAt(s, i)
      case Some(e) => RemovePronounsFrom(s, e)
      case None => [s[i]] + RemovePronounsFrom(s, i + 1)
  }

  function RemovePronouns(s: string): string
  {
    RemovePronounsFrom(s, 0)
  }

  /** No pronoun annotation starts anywhere in `s`. */
  predicate NoPronounGroup(s: string)
  {
    forall p :: 0 <= p < |s| ==> PronounMatchAt(s, p).None?
  }

  /** Text without a pronoun annotation passes through unchanged. */
  lemma {:induction false} RemovePronounsPlain(s: string, i: nat)
    requires i <= |s| && NoPronounGroup(s)
    ensures RemovePronounsFrom(s, i) == s[i..]
    decreases |s| - i
  {
    if i < |s| {
      RemovePronounsPlain(s, i + 1);
      assert s[i..] == [s[i]] + s[i + 1..];
    }
  }

  /**
   * A pronoun match from `p` to `e` is whitespace, '(' at `q`, a group without
   * ')' that mentions a pronoun, ')' at `r`, and all the whitespace after it.
   */
  lemma PronounMatchSound(s: string, p: nat) returns (q: nat, r: nat)
    requires p <= |s| && PronounMatchAt(s, p).Some?
    ensures var e := PronounMatchAt(s, p).value;
      p <= q < r < e <= |s| && AllSpace(s[p..q]) && s[q] == '(' && s[r] == ')'
      && ')' !in s[q + 1..r] && MentionsPronoun(s[q + 1..r])
      && AllSpace(s[r + 1..e]) && (e < |s| ==> !IsSpace(s[e]))
  {
    q := SkipSpaces(s, p);
    r := NextClose(s, q + 1).value;
    var e := SkipSpaces(s, r + 1);
    var lead, group, trail := s[p..q], s[q + 1..r], s[r + 1..e];
    assert forall k :: 0 <= k < |lead| ==> lead[k] == s[p + k];
    assert forall k :: 0 <= k < |group| ==> group[k] == s[q + 1 + k];
    assert forall k :: 0 <= k < |trail| ==> trail[k] == s[r + 1 + k];
  }

  /** Conversely, text of that shape starting at `p` is a pronoun match. */
  lemma PronounMatchComplete(s: string, p: nat, q: nat, r: nat)
    requires p <= q < r < |s| && AllSpace(s[p..q]) && s[q] == '(' && s[r] == ')'
    requires ')' !in s[q + 1..r] && MentionsPronoun(s[q + 1..r])
    ensures PronounMatchAt(s, p) == Some(SkipSpaces(s, r + 1))
  {
    assert !IsSpace(s[q]);
    SkipSpacesTo(s, p, q);
    NextCloseAt(s, q + 1, r);
    PronounMatchAtUnfold(s, p, q, r);
  }

  /** A match attempt whose whitespace ends at '(' at `q`, closed at `r`, turns on the group. */
  lemma PronounMatchAtUnfold(s: string, p: nat, q: nat, r: nat)
    requires p <= q < |s| && SkipSpaces(s, p) == q && s[q] == '('
    requires NextClose(s, q + 1) == Some(r)
    ensures PronounMatchAt(s, p) == if MentionsPronoun(s[q + 1..r]) then Some(SkipSpaces(s, r + 1)) else None
  {
  }

  /** Whitespace from `p` up to a non-space at `q` is skipped up to `q`. */
  lemma SkipSpacesTo(s: string, p: nat, q: nat)
    requires p <= q < |s| && !IsSpace(s[q]) && AllSpace(s[p..q])
    ensures SkipSpaces(s, p) == q
  {
    var lead := s[p..q];
    forall k | p <= k < q ensures IsSpace(s[k]) {
      assert lead[k - p] == s[k];
    }
  }

  /** The first ')' from `i` on is at `r`. */
  lemma NextCloseAt(s: string, i: nat, r: nat)
    requires i <= r < |s| && s[r] == ')' && ')' !in s[i..r]
    ensures NextClose(s, i) == Some(r)
  {
    var group := s[i..r];
    forall k | i <= k < r ensures s[k] != ')' {
      assert group[k - i] == s[k];
    }
  }

  /** No pronoun match starts in `[i, j)`. */
  predicate NoMatchBetween(s: string, i: nat, j: nat)
    requires i <= j <= |s|
  {
    forall p :: i <= p < j ==> PronounMatchAt(s, p).None?
  }

  /** Where no match starts at `i`, the character at `i` is copied. */
  lemma CopyOne(s: string, i: nat)
    requires i < |s| && PronounMatchAt(s, i).None?
    ensures RemovePronounsFrom(s, i) == [s[i]] + RemovePronounsFrom(s, i + 1)
  {
  }

  /** A line without '(' has no pronoun annotation. */
  lemma NoParenNoPronoun(s: string)
    requires '(' !in s
    ensures NoPronounGroup(s)
  {
    forall p | 0 <= p < |s| ensures PronounMatchAt(s, p).None? {
      var q := SkipSpaces(s, p);
      if q < |s| { assert s[q] in s; }
    }
  }

  // ---------------------------------------------------------------------------
  // The specification of `preprocess`

  /** Every element is non-empty and stripped. */
  predicate AllNonBlankStripped(ts: seq<string>)
  {
    forall k :: 0 <= k < |ts| ==> ts[k] != [] && IsStripped(ts[k])
  }

  /** No element holds a separator. */
  predicate NoneHasSeparator(ts: seq<string>)
  {
    forall k :: 0 <= k < |ts| ==> !HasSeparator(ts[k])
  }

  /** The contributions `f` assigns to each element of `xs`, concatenated in order. */
  function FlatMap(f: string -> seq<string>, xs: seq<string>): seq<string>
  {
    if xs == [] then [] else FlatMap(f, xs[..|xs| - 1]) + f(xs[|xs| - 1])
  }

  /** What one piece contributes: its stripped text, unless that is blank. */
  function KeptPart(part: string): (ts: seq<string>)
  {
    var t := Strip(part);
    if t == [] then [] else [t]
  }

  /** The stripped, non-blank pieces, in order. */
  function Kept(parts: seq<string>): seq<string>
  {
    FlatMap(KeptPart, parts)
  }

  lemma {:induction false} KeptWellFormed(parts: seq<string>)
    ensures AllNonBlankStripped(Kept(parts))
    ensures NoneHasSeparator(parts) ==> NoneHasSeparator(Kept(parts))
  {
    if parts != [] {
      var init := parts[..|parts| - 1];
      KeptWellFormed(init);
      assert NoneHasSeparator(parts) ==> NoneHasSeparator(init) && !HasSeparator(Strip(parts[|parts| - 1]));
    }
  }

  /** A valid token: non-empty, stripped, and free of separators. */
  predicate IsToken(t: string)
  {
    t != [] && IsStripped(t) && !HasSeparator(t)
  }

  /** Every element is a valid token. */
  predicate AllTokens(ts: seq<string>)
  {
    forall k :: 0 <= k < |ts| ==> IsToken(ts[k])
  }

  /** What one raw line contributes. */
  function LineTokens(raw: string): seq<string>
  {
    var line := Strip(raw);
    if line == [] || IsNoise(line) then []
    else Kept(Parts(RemovePronouns(line)))
  }

  /** What a sequence of raw lines contributes, line after line. */
  function TokensOfLines(lines: seq<string>): seq<string>
  {
    FlatMap(LineTokens, lines)
  }

  /** The tokens `preprocess` returns for `text`. */
  function Tokens(text: string): seq<string>
  {
    if text == [] then [] else TokensOfLines(Split(Strip(text), "\n"))
  }

  /** Every token of a line is non-empty, stripped and free of separators. */
  lemma LineTokensWellFormed(raw: string)
    ensures AllTokens(LineTokens(raw))
  {
    var line := Strip(raw);
    if line != [] && !IsNoise(line) {
      var parts := Parts(RemovePronouns(line));
      assert NoneHasSeparator(parts);
      KeptWellFormed(parts);
    }
  }

  /** Every token of every line is non-empty, stripped and free of separators. */
  lemma {:induction false} FlatMapWellFormed(xs: seq<string>)
    ensures AllTokens(FlatMap(LineTokens, xs))
  {
    if xs != [] {
      FlatMapWellFormed(xs[..|xs| - 1]);
      LineTokensWellFormed(xs[|xs| - 1]);
    }
  }

  lemma TokensOfLinesWellFormed(lines: seq<string>)
    ensures AllTokens(TokensOfLines(lines))
  {
    FlatMapWellFormed(lines);
  }

  // ---------------------------------------------------------------------------
  // `preprocess`

  /** A kept line contributes the kept pieces of its pronoun-free text. */
  lemma LineTokensKept(raw: string)
    requires Strip(raw) != [] && !IsNoise(Strip(raw))
    ensures LineTokens(raw) == Kept(Parts(RemovePronouns(Strip(raw))))
  {
  }

  /** The inner loop of `preprocess`: the stripped, non-blank pieces of one line, in order. */
  method KeepParts(parts: seq<string>) returns (kept: seq<string>)
    ensures kept == Kept(parts)
    ensures AllNonBlankStripped(kept)
    ensures NoneHasSeparator(parts) ==> NoneHasSeparator(kept)
  {
    kept := [];
    for j := 0 to |parts|
      invariant kept == Kept(parts[..j])
    {
      assert parts[..j + 1][..j] == parts[..j];
      var part := Strip(parts[j]);
      if part != [] {
        kept := kept + [part];
      }
    }
    assert parts[..|parts|] == parts;
    KeptWellFormed(parts);
  }

  /** The noise loop of `preprocess`: does any pattern match the line? */
  method MatchesNoise(line: string) returns (skip: bool)
    ensures skip <==> IsNoise(line)
  {
    skip := false;
    var k := 0;
    while k < |NoisePatterns|
      invariant 0 <= k <= |NoisePatterns|
      invariant forall j :: 0 <= j < k ==> !NoiseMatches(NoisePatterns[j], line)
    {
      if NoiseMatches(NoisePatterns[k], line) {
        skip := true;
        return;
      }
      k := k + 1;
    }
  }

  method Preprocess(text: string) returns (tokens: seq<string>)
    ensures tokens == Tokens(text)
    ensures text == [] ==> tokens == []
    ensures AllTokens(tokens)
  {
    if text == [] {
      assert AllTokens([]);
      return [];
    }
    var lines := Split(Strip(text), "\n");
    tokens := [];
    for i := 0 to |lines|
      invariant tokens == TokensOfLines(lines[..i])
    {
      assert lines[..i + 1][..i] == lines[..i];
      var line := Strip(lines[i]);
      if line == [] {
        continue;
      }
      var skip := MatchesNoise(line);
      if skip {
        continue;
      }
      LineTokensKept(lines[i]);
      var kept := KeepParts(Parts(RemovePronouns(line)));
      tokens := tokens + kept;
    }
    assert lines[..|lines|] == lines;
    TokensOfLinesWellFormed(lines);
  }

  // ---------------------------------------------------------------------------
  // Properties of the specification

  lemma {:induction false} FlatMapAppend(f: string -> seq<string>, a: seq<string>, b: seq<string>)
    ensures FlatMap(f, a + b) == FlatMap(f, a) + FlatMap(f, b)
    decreases |b|
  {
    if b == [] {
      assert a + b == a;
    } else {
      var b', x := b[..|b| - 1], b[|b| - 1];
      assert (a + b)[..|a + b| - 1] == a + b';
      assert (a + b)[|a + b| - 1] == x;
      assert FlatMap(f, a + b) == FlatMap(f, a + b') + f(x);
      FlatMapAppend(f, a, b');
      assert FlatMap(f, b) == FlatMap(f, b') + f(x);
    }
  }

  /** Tokens of earlier lines come first: the token list of a concatenation is the concatenation. */
  lemma TokensOfLinesAppend(a: seq<string>, b: seq<string>)
    ensures TokensOfLines(a + b) == TokensOfLines(a) + TokensOfLines(b)
  {
    FlatMapAppend(LineTokens, a, b);
  }

  /** A blank line or a noise line (after stripping) contributes no tokens. */
  lemma NoiseLineDropped(raw: string)
    requires Strip(raw) == [] || IsNoise(Strip(raw))
    ensures LineTokens(raw) == []
  {
  }

  /** A kept line without separators or pronoun annotations yields exactly its stripped text. */
  lemma PlainLineSingleToken(raw: string)
    requires Strip(raw) != [] && !IsNoise(Strip(raw))
    requires !HasSeparator(Strip(raw)) && NoPronounGroup(Strip(raw))
    ensures LineTokens(raw) == [Strip(raw)]
  {
    var line := Strip(raw);
    RemovePronounsPlain(line, 0);
    assert RemovePronouns(line) == line;
    PartsOfPlain(line);
    assert Kept([line]) == Kept([line][..0]) + [Strip(line)];
    assert [line][..0] == [];
  }

  // ---------------------------------------------------------------------------
  // A name followed by a pronoun annotation

  /** No match starts before `n` when `s[..n]` has no '(' and ends in a non-space. */
  lemma NoMatchBeforeName(s: string, n: nat)
    requires 0 < n <= |s| && !IsSpace(s[n - 1])
    requires forall i :: 0 <= i < n ==> s[i] != '('
    ensures NoMatchBetween(s, 0, n)
  {
    forall p | 0 <= p < n ensures PronounMatchAt(s, p).None? {
      var q := SkipSpaces(s, p);
      assert q <= n - 1;
    }
  }

  /** Where no match starts in `[k, n)`, `s[k..n]` is copied ahead of what remains from `n` on. */
  lemma {:induction false} CopiedUpTo(s: string, k: nat, n: nat)
    requires k <= n <= |s| && NoMatchBetween(s, k, n)
    ensures RemovePronounsFrom(s, k) == s[k..n] + RemovePronounsFrom(s, n)
    decreases n - k
  {
    if k == n {
      assert s[k..n] == [];
    } else {
      assert PronounMatchAt(s, k).None?;
      assert NoMatchBetween(s, k + 1, n);
      CopiedUpTo(s, k + 1, n);
      CopyStep(s, k, n, RemovePronounsFrom(s, n));
    }
  }

  lemma CopyStep(s: string, k: nat, n: nat, tail: string)
    requires k < n <= |s| && PronounMatchAt(s, k).None? && RemovePronounsFrom(s, k + 1) == s[k + 1..n] + tail
    ensures RemovePronounsFrom(s, k) == s[k..n] + tail
  {
    CopyOne(s, k);
    assert s[k..n] == [s[k]] + s[k + 1..n];
  }

  /** From `i` on, text without '(' is copied unchanged. */
  lemma {:induction false} CopiedWithoutParen(s: string, i: nat)
    requires i <= |s| && forall k :: i <= k < |s| ==> s[k] != '('
    ensures RemovePronounsFrom(s, i) == s[i..]
    decreases |s| - i
  {
    if i < |s| {
      var q := SkipSpaces(s, i);
      assert PronounMatchAt(s, i).None?;
      CopiedWithoutParen(s, i + 1);
      CopyStep(s, i, |s|, []);
    }
  }

  /**
   * A name followed by a space and a parenthesised pronoun annotation at the
   * end of the line: the annotation and the space before it are cut, the name stays.
   */
  lemma TrailingAnnotationRemoved(name: string, group: string)
    requires name != [] && !IsSpace(name[|name| - 1]) && '(' !in name
    requires ')' !in group && MentionsPronoun(group)
    ensures RemovePronouns(name + " (" + group + ")") == name
  {
    var s := name + " (" + group + ")";
    var n := |name|;
    var r := n + 2 + |group|;
    assert s[..n] == name && s[n..n + 1] == " " && s[n + 1] == '(' && s[r] == ')';
    assert s[n + 1 + 1..r] == group;
    assert AllSpace(s[n..n + 1]);
    PronounMatchComplete(s, n, n + 1, r);
    assert RemovePronounsFrom(s, n) == [];
    forall i | 0 <= i < n ensures s[i] != '(' {
      assert s[i] == name[i];
    }
    NoMatchBeforeName(s, n);
    CopiedUpTo(s, 0, n);
    assert s[0..n] + [] == name;
  }

  /**
   * An annotation between two words is cut together with the whitespace on
   * both sides of it, so the words are joined: "Jane (she/her) Doe" becomes
   * "JaneDoe".
   */
  lemma InnerAnnotationRemoved(pre: string, group: string, post: string)
    requires pre != [] && !IsSpace(pre[|pre| - 1]) && '(' !in pre
    requires ')' !in group && MentionsPronoun(group)
    requires post != [] && !IsSpace(post[0]) && '(' !in post
    ensures RemovePronouns(pre + " (" + group + ") " + post) == pre + post
  {
    var s := pre + " (" + group + ") " + post;
    var n := |pre|;
    var r := n + 2 + |group|;
    InnerLayout(pre, group, post);
    MatchCut(s, n, n + 1, r, r + 2);
    CopiedWithoutParen(s, r + 2);
    NoMatchBeforeName(s, n);
    CopiedUpTo(s, 0, n);
  }

  /** Where `pre`, the annotation and `post` sit in `pre + " (" + group + ") " + post`. */
  lemma InnerLayout(pre: string, group: string, post: string)
    requires pre != [] && !IsSpace(pre[|pre| - 1]) && '(' !in pre
    requires ')' !in group
    requires post != [] && !IsSpace(post[0]) && '(' !in post
    ensures var s, n, r := pre + " (" + group + ") " + post, |pre|, |pre| + 2 + |group|;
      r + 2 < |s| && s[..n] == pre && s[r + 2..] == post
      && AllSpace(s[n..n + 1]) && s[n + 1] == '(' && s[r] == ')' && s[n + 2..r] == group
      && AllSpace(s[r + 1..r + 2]) && !IsSpace(s[r + 2]) && !IsSpace(s[n - 1])
      && (forall i :: 0 <= i < n ==> s[i] != '(')
      && (forall k :: r + 2 <= k < |s| ==> s[k] != '(')
  {
    var s, n, r := pre + " (" + group + ") " + post, |pre|, |pre| + 2 + |group|;
    assert s[..n] == pre && s[n + 2..r] == group && s[r + 2..] == post;
    assert s[n..n + 1] == " " && s[r + 1..r + 2] == " ";
    forall i | 0 <= i < n ensures s[i] != '(' {
      assert s[i] == pre[i];
    }
    forall k | r + 2 <= k < |s| ensures s[k] != '(' {
      assert s[k] == post[k - (r + 2)];
    }
  }

  /** A match from `p` to `e` is cut: what remains from `p` is what remains from `e`. */
  lemma MatchCut(s: string, p: nat, q: nat, r: nat, e: nat)
    requires p <= q < r < e <= |s| && AllSpace(s[p..q]) && s[q] == '(' && s[r] == ')'
    requires ')' !in s[q + 1..r] && MentionsPronoun(s[q + 1..r])
    requires AllSpace(s[r + 1..e]) && (e < |s| ==> !IsSpace(s[e]))
    ensures RemovePronounsFrom(s, p) == RemovePronounsFrom(s, e)
  {
    PronounMatchComplete(s, p, q, r);
    assert SkipSpaces(s, r + 1) == e by {
      if e < |s| {
        SkipSpacesTo(s, r + 1, e);
      } else {
        SkipSpacesToEnd(s, r + 1);
      }
    }
    CutOne(s, p, e);
  }

  /** Where a match from `i` ends at `e`, the text resumes at `e`. */
  lemma CutOne(s: string, i: nat, e: nat)
    requires i < |s| && PronounMatchAt(s, i) == Some(e)
    ensures RemovePronounsFrom(s, i) == RemovePronounsFrom(s, e)
  {
  }

  /** Whitespace from `p` to the end is skipped to the end. */
  lemma SkipSpacesToEnd(s: string, p: nat)
    requires p <= |s| && AllSpace(s[p..])
    ensures SkipSpaces(s, p) == |s|
  {
    var tail := s[p..];
    forall k | p <= k < |s| ensures IsSpace(s[k]) {
      assert tail[k - p] == s[k];
    }
  }

  /** A line holding one name token and a trailing pronoun annotation yields exactly the name. */
  lemma AnnotatedNameToken(name: string, group: string)
    requires IsToken(name) && '(' !in name
    requires ')' !in group && MentionsPronoun(group)
    requires !IsNoise(name + " (" + group + ")")
    ensures LineTokens(name + " (" + group + ")") == [name]
  {
    var s := name + " (" + group + ")";
    assert s[0] == name[0] && s[|s| - 1] == ')';
    assert Strip(s) == s;
    TrailingAnnotationRemoved(name, group);
    LineTokensKept(s);
    PartsOfPlain(name);
    KeptSingle(name);
  }

  /** A single piece that is not blank is kept as its stripped text. */
  lemma KeptSingle(t: string)
    requires Strip(t) != []
    ensures Kept([t]) == [Strip(t)]
  {
    assert [t][..0] == [];
    assert FlatMap(KeptPart, [t]) == FlatMap(KeptPart, []) + KeptPart(t);
    assert KeptPart(t) == [Strip(t)];
  }

  // A worked line

  const Annotated: string := "Jane Doe (she/her)"

  lemma SheHerMentionsPronoun(group: string)
    requires group == "she/her"
    ensures ')' !in group && MentionsPronoun(group)
  {
    assert Lower(group) == "she/her";
    assert OccursAt(Lower(group), "he", 1);
    assert Contains(Lower(group), PronounAlternatives[0]);
  }

  lemma JaneDoeToken(name: string)
    requires name == "Jane Doe"
    ensures IsToken(name) && '(' !in name
  {
    assert IsStripped(name);
    forall i | 0 <= i < |name| ensures !IsSeparator(name[i]) { }
  }

  lemma AnnotatedNotNoise()
    ensures !IsNoise(Annotated)
  {
    var s := Annotated;
    assert Lower(s[..1]) == "j" && Lower(s[..3]) == "jan" && Lower(s[..5]) == "jane ";
    assert Lower(s[..8]) == "jane doe";
    assert DashRun(s) == 0;
    forall k | 0 <= k < |NoisePatterns| ensures !NoiseMatches(NoisePatterns[k], s) {
    }
  }

  /** "Jane Doe (she/her)" yields the single token "Jane Doe". */
  lemma AnnotatedLineToken()
    ensures LineTokens(Annotated) == ["Jane Doe"]
  {
    var name, group := "Jane Doe", "she/her";
    SheHerMentionsPronoun(group);
    JaneDoeToken(name);
    assert name + " (" + group + ")" == Annotated;
    AnnotatedNotNoise();
    AnnotatedNameToken(name, group);
  }
}
