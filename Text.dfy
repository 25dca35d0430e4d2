/** String operations the scrapers and the API rely on, stated for `seq<char>`:
    blank characters, trimming, the two ways of splitting on blanks, joining,
    single-character splitting, the lexicographic order that JavaScript and
    Python use for `<` on strings, zero-padded decimal numbers, the replacement
    that turns a clinic name into a collection name, and the regular expression
    `Label:\s*([^\n]+)` that pulls a labelled field out of a tooltip. */
module Text {
  import opened Wrappers

  // ---------------------------------------------------------------------------
  // Blank characters
  // ---------------------------------------------------------------------------

  /** The ASCII blanks, which JavaScript's `\s` and `trim()` and Python's
      `str.split()` and `str.strip()` all treat as whitespace. */
  predicate IsSpace(c: char) {
    c == ' ' || c == '\t' || c == '\n' || c == '\r' || c == '\U{000B}' || c == '\U{000C}'
  }

  predicate NoSpace(s: string) {
    forall i :: 0 <= i < |s| ==> !IsSpace(s[i])
  }

  predicate AllSpace(s: string) {
    forall i :: 0 <= i < |s| ==> IsSpace(s[i])
  }

  /** A token is a non-empty run of non-blank characters. */
  predicate IsToken(s: string) {
    |s| > 0 && NoSpace(s)
  }

  predicate AllTokens(ws: seq<string>) {
    forall i :: 0 <= i < |ws| ==> IsToken(ws[i])
  }

  /** Neither end of the string is blank. */
  predicate Trimmed(s: string) {
    s == [] || (!IsSpace(s[0]) && !IsSpace(s[|s| - 1]))
  }

  // ---------------------------------------------------------------------------
  // Trimming (`String.prototype.trim`, `str.strip`)
  // ---------------------------------------------------------------------------

  function TrimStart(s: string): (r: string)
    ensures |r| <= |s| && r == s[|s| - |r|..]
    ensures forall i :: 0 <= i < |s| - |r| ==> IsSpace(s[i])
    ensures r == [] || !IsSpace(r[0])
  {
    if |s| > 0 && IsSpace(s[0]) then TrimStart(s[1..]) else s
  }

  function TrimEnd(s: string): (r: string)
    ensures |r| <= |s| && r == s[..|r|]
    ensures forall i :: |r| <= i < |s| ==> IsSpace(s[i])
    ensures r == [] || !IsSpace(r[|r| - 1])
  {
    if |s| > 0 && IsSpace(s[|s| - 1]) then TrimEnd(s[..|s| - 1]) else s
  }

  /** Removes the blanks at both ends: the result is empty exactly when `s`
      is all blank, and a string without blank ends is left as it is. */
  function Trim(s: string): (r: string)
    ensures Trimmed(r)
    ensures r == [] <==> AllSpace(s)
    ensures Trimmed(s) ==> r == s
  {
    TrimBothEnds(s);
    TrimEmpty(s);
    if Trimmed(s) then TrimmedUntouched(s); s
    else TrimEnd(TrimStart(s))
  }

  lemma TrimBothEnds(s: string)
    ensures Trimmed(TrimEnd(TrimStart(s)))
  {
    var t := TrimStart(s);
    var r := TrimEnd(t);
    if r != [] {
      assert r[0] == t[0];
    }
  }

  lemma TrimEmpty(s: string)
    ensures TrimEnd(TrimStart(s)) == [] <==> AllSpace(s)
  {
    var t := TrimStart(s);
    var r := TrimEnd(t);
    if r == [] {
      TrimEndEmpty(t);
    } else {
      assert s[|s| - |t|] == t[0] == r[0];
    }
  }

  lemma TrimEndEmpty(t: string)
    requires t == [] || !IsSpace(t[0])
    ensures TrimEnd(t) == [] ==> t == []
  {
  }

  lemma TrimmedUntouched(s: string)
    requires Trimmed(s)
    ensures TrimEnd(TrimStart(s)) == s
  {
  }

  /** Trimming only removes characters. */
  lemma TrimKeepsOut(s: string, c: char)
    requires c !in s
    ensures c !in Trim(s)
  {
    TrimStartKeepsOut(s, c);
    TrimEndKeepsOut(TrimStart(s), c);
  }

  lemma {:induction false} TrimStartKeepsOut(s: string, c: char)
    requires c !in s
    ensures c !in TrimStart(s)
    decreases |s|
  {
    if |s| > 0 && IsSpace(s[0]) {
      assert forall x :: x in s[1..] ==> x in s;
      TrimStartKeepsOut(s[1..], c);
    }
  }

  lemma {:induction false} TrimEndKeepsOut(s: string, c: char)
    requires c !in s
    ensures c !in TrimEnd(s)
    decreases |s|
  {
    if |s| > 0 && IsSpace(s[|s| - 1]) {
      assert forall x :: x in s[..|s| - 1] ==> x in s;
      TrimEndKeepsOut(s[..|s| - 1], c);
    }
  }

  /** Trimming blanks around a trimmed, non-empty body gives the body. */
  lemma TrimAround(lead: string, body: string, tail: string)
    requires AllSpace(lead) && AllSpace(tail) && Trimmed(body) && body != []
    ensures Trim(lead + body + tail) == body
  {
    assert lead + body + tail == lead + (body + tail);
    TrimStartLead(lead, body + tail);
    TrimEndTail(body, tail);
  }

  lemma {:induction false} TrimStartLead(lead: string, t: string)
    requires AllSpace(lead) && (t == [] || !IsSpace(t[0]))
    ensures TrimStart(lead + t) == t
  {
    if lead == [] {
      assert lead + t == t;
    } else {
      assert (lead + t)[1..] == lead[1..] + t;
      TrimStartLead(lead[1..], t);
    }
  }

  lemma {:induction false} TrimEndTail(t: string, tail: string)
    requires AllSpace(tail) && (t == [] || !IsSpace(t[|t| - 1]))
    ensures TrimEnd(t + tail) == t
  {
    if tail == [] {
      assert t + tail == t;
    } else {
      var s := t + tail;
      assert s[..|s| - 1] == t + tail[..|tail| - 1];
      TrimEndTail(t, tail[..|tail| - 1]);
    }
  }

  // ---------------------------------------------------------------------------
  // Runs of blanks and non-blanks
  // ---------------------------------------------------------------------------

  /** Length of the leading run of non-blank characters. */
  function WordLen(s: string): (n: nat)
    ensures n <= |s| && NoSpace(s[..n]) && (n < |s| ==> IsSpace(s[n]))
  {
    if |s| == 0 || IsSpace(s[0]) then 0 else 1 + WordLen(s[1..])
  }

  /** Length of the leading run of blank characters. */
  function SpaceLen(s: string): (n: nat)
    ensures n <= |s| && AllSpace(s[..n]) && (n < |s| ==> !IsSpace(s[n]))
  {
    if |s| > 0 && IsSpace(s[0]) then 1 + SpaceLen(s[1..]) else 0
  }

  /** Python's `str.split()` with no argument: the maximal runs of non-blank
      characters, in order, never an empty piece. */
  function Words(s: string): (r: seq<string>)
    ensures AllTokens(r)
    decreases |s|
  {
    if |s| == 0 then []
    else if IsSpace(s[0]) then Words(s[1..])
    else
      var n := WordLen(s);
      [s[..n]] + Words(s[n..])
  }

  /** A trimmed string has no words exactly when it is empty. */
  lemma WordsOfTrimmed(t: string)
    requires Trimmed(t)
    ensures Words(t) == [] <==> t == []
  {
    if t != [] {
      assert !IsSpace(t[0]);
    }
  }

  /** JavaScript's `s.split(/\s+/)`: the pieces between maximal blank runs,
      where a blank run at either end gives an empty piece and `""` gives `[""]`. */
  function SplitRuns(s: string): (r: seq<string>)
    ensures |r| >= 1 && forall i :: 0 <= i < |r| ==> NoSpace(r[i])
    decreases |s|
  {
    var n := WordLen(s);
    if n == |s| then [s]
    else
      var m := n + SpaceLen(s[n..]);
      [s[..n]] + SplitRuns(s[m..])
  }

  /** `Array.prototype.join(sep)` and Python's `sep.join(parts)`. */
  function Join(parts: seq<string>, sep: string): string
  {
    if |parts| == 0 then ""
    else if |parts| == 1 then parts[0]
    else parts[0] + sep + Join(parts[1..], sep)
  }

  /** Position of the first `c` in `s`, or `|s|` when there is none. */
  function IndexOf(s: string, c: char): (n: nat)
    ensures n <= |s| && c !in s[..n] && (n < |s| ==> s[n] == c)
  {
    if |s| == 0 || s[0] == c then 0 else 1 + IndexOf(s[1..], c)
  }

  /** `s.split(c)` for a one-character separator, in both languages. */
  function SplitOn(s: string, c: char): (r: seq<string>)
    ensures |r| >= 1 && forall i :: 0 <= i < |r| ==> c !in r[i]
    decreases |s|
  {
    var n := IndexOf(s, c);
    if n == |s| then [s] else [s[..n]] + SplitOn(s[n + 1..], c)
  }

  lemma {:induction false} WordLenOfToken(w: string, t: string)
    requires NoSpace(w) && (t == [] || IsSpace(t[0]))
    ensures WordLen(w + t) == |w|
  {
    if |w| > 0 {
      assert (w + t)[1..] == w[1..] + t;
      WordLenOfToken(w[1..], t);
    } else {
      assert w + t == t;
    }
  }

  lemma {:induction false} IndexOfAfter(p: string, t: string, c: char)
    requires c !in p && |t| > 0 && t[0] == c
    ensures IndexOf(p + t, c) == |p|
  {
    if |p| > 0 {
      assert (p + t)[1..] == p[1..] + t;
      IndexOfAfter(p[1..], t, c);
    } else {
      assert p + t == t;
    }
  }

  /** Dropping part of a leading blank run does not change the words. */
  lemma {:induction false} WordsSkip(s: string, k: nat)
    requires k <= SpaceLen(s)
    ensures Words(s[k..]) == Words(s)
  {
    if k > 0 {
      assert s[1..][k - 1..] == s[k..];
      WordsSkip(s[1..], k - 1);
    }
  }

  /** On a trimmed, non-empty string, JavaScript's `split(/\s+/)` and Python's
      `split()` give the same tokens. */
  lemma {:induction false} SplitRunsOfTrimmed(s: string)
    requires Trimmed(s) && s != []
    ensures SplitRuns(s) == Words(s)
    decreases |s|
  {
    var n := WordLen(s);
    if n < |s| {
      var m := n + SpaceLen(s[n..]);
      assert IsSpace(s[n]);
      assert m < |s|;
      assert s[n..][SpaceLen(s[n..])..] == s[m..];
      SplitRunsOfTrimmed(s[m..]);
      WordsSkip(s[n..], SpaceLen(s[n..]));
      assert Words(s) == [s[..n]] + Words(s[n..]);
    } else {
      assert s[..n] == s && s[n..] == [];
    }
  }

  /** Joining tokens with single spaces and splitting again gives the tokens back. */
  lemma {:induction false} WordsOfJoin(ws: seq<string>)
    requires AllTokens(ws)
    ensures Words(Join(ws, " ")) == ws
  {
    if |ws| == 1 {
      WordLenOfToken(ws[0], "");
      assert ws[0] + "" == ws[0];
      assert ws[0][|ws[0]|..] == [];
    } else if |ws| > 1 {
      var rest := Join(ws[1..], " ");
      var s := ws[0] + " " + rest;
      assert s == ws[0] + (" " + rest);
      WordLenOfToken(ws[0], " " + rest);
      assert s[..|ws[0]|] == ws[0];
      assert s[|ws[0]|..] == " " + rest;
      assert (" " + rest)[1..] == rest;
      WordsOfJoin(ws[1..]);
    }
  }

  /** Blank runs that separate tokens: each one non-empty and all blank. */
  predicate Gaps(gaps: seq<string>) {
    forall i :: 0 <= i < |gaps| ==> gaps[i] != [] && AllSpace(gaps[i])
  }

  /** The token `w` followed by each `ws[i]`, preceded by the blank run
      `gaps[i]`: a text whose tokens are separated by arbitrary blanks. */
  function Spaced(w: string, ws: seq<string>, gaps: seq<string>): string
    requires |gaps| == |ws|
    decreases |ws|
  {
    if ws == [] then w else w + gaps[0] + Spaced(ws[0], ws[1..], gaps[1..])
  }

  /** A leading blank run is at least as long as any all-blank prefix. */
  lemma {:induction false} SpaceLenAtLeast(sp: string, t: string)
    requires AllSpace(sp)
    ensures SpaceLen(sp + t) >= |sp|
  {
    if |sp| > 0 {
      assert (sp + t)[1..] == sp[1..] + t;
      SpaceLenAtLeast(sp[1..], t);
    }
  }

  /** Blanks between tokens neither begin nor end the text. */
  lemma {:induction false} SpacedTrimmed(w: string, ws: seq<string>, gaps: seq<string>)
    requires IsToken(w) && AllTokens(ws) && |gaps| == |ws|
    ensures var s := Spaced(w, ws, gaps);
      s != [] && s[0] == w[0] && !IsSpace(s[|s| - 1])
    decreases |ws|
  {
    if ws != [] {
      var t := Spaced(ws[0], ws[1..], gaps[1..]);
      SpacedTrimmed(ws[0], ws[1..], gaps[1..]);
      assert Spaced(w, ws, gaps) == w + (gaps[0] + t);
    }
  }

  /** Python's `split()` collapses every blank run between tokens: the text
      splits into exactly its tokens, whatever the blanks separating them. */
  lemma {:induction false} WordsOfSpaced(w: string, ws: seq<string>, gaps: seq<string>)
    requires IsToken(w) && AllTokens(ws) && |gaps| == |ws| && Gaps(gaps)
    ensures Words(Spaced(w, ws, gaps)) == [w] + ws
    decreases |ws|
  {
    if ws == [] {
      WordLenOfToken(w, "");
      assert w + "" == w;
      assert w[|w|..] == [];
    } else {
      var g := gaps[0];
      var t := Spaced(ws[0], ws[1..], gaps[1..]);
      var s := Spaced(w, ws, gaps);
      assert s == w + (g + t);
      assert IsSpace(g[0]);
      WordLenOfToken(w, g + t);
      assert s[..|w|] == w && s[|w|..] == g + t;
      SpaceLenAtLeast(g, t);
      WordsSkip(g + t, |g|);
      assert (g + t)[|g|..] == t;
      WordsOfSpaced(ws[0], ws[1..], gaps[1..]);
      assert [ws[0]] + ws[1..] == ws;
    }
  }

  lemma {:induction false} JoinTrimmed(ws: seq<string>)
    requires AllTokens(ws)
    ensures Trimmed(Join(ws, " "))
    ensures ws != [] ==> Join(ws, " ") != [] && Join(ws, " ")[0] == ws[0][0]
  {
    if |ws| > 1 {
      JoinTrimmed(ws[1..]);
      var s := Join(ws, " ");
      assert s == ws[0] + (" " + Join(ws[1..], " "));
      assert s[0] == ws[0][0];
      assert s[|s| - 1] == Join(ws[1..], " ")[|Join(ws[1..], " ")| - 1];
    }
  }

  /** Joining pieces that do not contain `c` with `c` and splitting on `c`
      gives the pieces back. */
  lemma {:induction false} SplitOnJoin(parts: seq<string>, c: char)
    requires |parts| >= 1 && forall i :: 0 <= i < |parts| ==> c !in parts[i]
    ensures SplitOn(Join(parts, [c]), c) == parts
  {
    if |parts| == 1 {
      assert IndexOf(parts[0], c) == |parts[0]|;
    } else {
      var rest := Join(parts[1..], [c]);
      var s := parts[0] + [c] + rest;
      assert s == parts[0] + ([c] + rest);
      IndexOfAfter(parts[0], [c] + rest, c);
      assert s[..|parts[0]|] == parts[0];
      assert s[|parts[0]| + 1..] == rest;
      SplitOnJoin(parts[1..], c);
    }
  }

  // ---------------------------------------------------------------------------
  // String order (`<`, `<=`, `$lt`, `$gte` on strings)
  // ---------------------------------------------------------------------------

  /** `a < b` on strings in JavaScript, Python and MongoDB: lexicographic on
      characters, with a proper prefix coming first. (Dafny's own `<` on
      sequences means "proper prefix", which is a different relation.) */
  predicate StrLess(a: string, b: string)
    decreases |a|
  {
    |b| > 0 && (|a| == 0 || a[0] < b[0] || (a[0] == b[0] && StrLess(a[1..], b[1..])))
  }

  predicate StrLe(a: string, b: string) {
    a == b || StrLess(a, b)
  }

  /** The string order is a strict total order: exactly one of `a < b`,
      `a == b`, `b < a` holds. */
  lemma {:induction false} StrLessTrichotomy(a: string, b: string)
    ensures StrLess(a, b) || a == b || StrLess(b, a)
    ensures !(StrLess(a, b) && StrLess(b, a))
    ensures !StrLess(a, a)
    decreases |a|
  {
    if |a| > 0 {
      StrLessTrichotomy(a[1..], a[1..]);
      if |b| > 0 {
        StrLessTrichotomy(a[1..], b[1..]);
        if a[0] == b[0] && a[1..] == b[1..] {
          assert a == [a[0]] + a[1..] && b == [b[0]] + b[1..];
        }
      }
    }
  }

  lemma {:induction false} StrLessTransitive(a: string, b: string, c: string)
    requires StrLess(a, b) && StrLess(b, c)
    ensures StrLess(a, c)
    decreases |a|
  {
    if |a| > 0 && a[0] == b[0] && b[0] == c[0] {
      StrLessTransitive(a[1..], b[1..], c[1..]);
    }
  }

  /** Comparing two concatenations whose first parts have the same length
      compares the first parts, and the second parts when the first are equal. */
  lemma {:induction false} StrLessAppend(p: string, q: string, x: string, y: string)
    requires |p| == |q|
    ensures StrLess(p + x, q + y) <==> StrLess(p, q) || (p == q && StrLess(x, y))
    decreases |p|
  {
    if |p| == 0 {
      assert p + x == x && q + y == y;
    } else {
      assert (p + x)[0] == p[0] && (q + y)[0] == q[0];
      assert (p + x)[1..] == p[1..] + x && (q + y)[1..] == q[1..] + y;
      StrLessAppend(p[1..], q[1..], x, y);
      StrLessTrichotomy(p, q);
      if p[0] == q[0] {
        assert p == q <==> p[1..] == q[1..] by {
          assert p == [p[0]] + p[1..] && q == [q[0]] + q[1..];
        }
      }
    }
  }

  // ---------------------------------------------------------------------------
  // Zero-padded decimals (`%Y`, `%m`, `%d`, `toISOString`)
  // ---------------------------------------------------------------------------

  function Pow10(w: nat): (r: nat)
    ensures r >= 1
  {
    if w == 0 then 1 else 10 * Pow10(w - 1)
  }

  function DigitChar(k: nat): (c: char)
    requires k < 10
  {
    ('0' as int + k) as char
  }

  /** `n` in decimal with exactly `w` digits, zero-padded on the left. */
  function Digits(n: nat, w: nat): (s: string)
    ensures |s| == w
  {
    if w == 0 then "" else Digits(n / 10, w - 1) + [DigitChar(n % 10)]
  }

  /** Zero-padded numbers of one width compare as strings exactly as they
      compare as numbers, and are equal exactly when the numbers are. */
  lemma {:induction false} DigitsOrder(n: nat, m: nat, w: nat)
    requires n < Pow10(w) && m < Pow10(w)
    ensures StrLess(Digits(n, w), Digits(m, w)) <==> n < m
    ensures Digits(n, w) == Digits(m, w) <==> n == m
  {
    if w > 0 {
      var dn, dm := Digits(n / 10, w - 1), Digits(m / 10, w - 1);
      var cn, cm := DigitChar(n % 10), DigitChar(m % 10);
      DigitsOrder(n / 10, m / 10, w - 1);
      StrLessAppend(dn, dm, [cn], [cm]);
      assert StrLess([cn], [cm]) <==> n % 10 < m % 10;
      assert n == 10 * (n / 10) + n % 10 && m == 10 * (m / 10) + m % 10;
      if Digits(n, w) == Digits(m, w) {
        assert (dn + [cn])[..w - 1] == dn && (dm + [cm])[..w - 1] == dm;
        assert (dn + [cn])[w - 1] == cn && (dm + [cm])[w - 1] == cm;
      }
    }
  }

  // ---------------------------------------------------------------------------
  // Collection names
  // ---------------------------------------------------------------------------

  /** JavaScript `s.replace(/\s+/g, '_')`: every maximal blank run becomes one underscore. */
  function ReplaceRuns(s: string): (r: string)
    ensures NoSpace(r) && |r| <= |s|
    decreases |s|
  {
    if |s| == 0 then ""
    else if IsSpace(s[0]) then "_" + ReplaceRuns(s[SpaceLen(s)..])
    else [s[0]] + ReplaceRuns(s[1..])
  }

  /** Python `s.replace(' ', '_')`: every single space becomes an underscore,
      other blanks are kept. */
  function ReplaceSpaces(s: string): (r: string)
    ensures |r| == |s|
    ensures ' ' !in r
  {
    if |s| == 0 then "" else (if s[0] == ' ' then "_" else [s[0]]) + ReplaceSpaces(s[1..])
  }

  lemma {:induction false} ReplaceRunsToken(w: string, t: string)
    requires NoSpace(w)
    ensures ReplaceRuns(w + t) == w + ReplaceRuns(t)
  {
    if |w| > 0 {
      assert (w + t)[0] == w[0] && (w + t)[1..] == w[1..] + t;
      ReplaceRunsToken(w[1..], t);
      assert w == [w[0]] + w[1..];
    } else {
      assert w + t == t;
    }
  }

  /** A maximal blank run of any length, before a non-blank or the end,
      becomes a single underscore. */
  lemma ReplaceRunsGap(gap: string, t: string)
    requires AllSpace(gap) && gap != [] && (t == [] || !IsSpace(t[0]))
    ensures ReplaceRuns(gap + t) == "_" + ReplaceRuns(t)
  {
    SpaceLenPrefix(gap, t);
    assert (gap + t)[|gap|..] == t;
  }

  /** Tokens separated by any blank runs become the tokens joined by single
      underscores. */
  lemma {:induction false} ReplaceRunsSpaced(w: string, ws: seq<string>, gaps: seq<string>)
    requires IsToken(w) && AllTokens(ws) && |gaps| == |ws| && Gaps(gaps)
    ensures ReplaceRuns(Spaced(w, ws, gaps)) == Join([w] + ws, "_")
    decreases |ws|
  {
    if ws == [] {
      ReplaceRunsToken(w, "");
      assert w + "" == w;
    } else {
      var g := gaps[0];
      var t := Spaced(ws[0], ws[1..], gaps[1..]);
      assert Spaced(w, ws, gaps) == w + (g + t);
      SpacedTrimmed(ws[0], ws[1..], gaps[1..]);
      ReplaceRunsToken(w, g + t);
      ReplaceRunsGap(g, t);
      ReplaceRunsSpaced(ws[0], ws[1..], gaps[1..]);
      assert [ws[0]] + ws[1..] == ws;
      assert ([w] + ws)[1..] == ws;
    }
  }

  lemma {:induction false} ReplaceSpacesAppend(a: string, b: string)
    ensures ReplaceSpaces(a + b) == ReplaceSpaces(a) + ReplaceSpaces(b)
  {
    if |a| > 0 {
      assert (a + b)[0] == a[0] && (a + b)[1..] == a[1..] + b;
      ReplaceSpacesAppend(a[1..], b);
    } else {
      assert a + b == b;
    }
  }

  lemma {:induction false} ReplaceSpacesToken(w: string)
    requires NoSpace(w)
    ensures ReplaceSpaces(w) == w
  {
    if |w| > 0 {
      ReplaceSpacesToken(w[1..]);
      assert w == [w[0]] + w[1..];
    }
  }

  /** For a name whose words are separated by single spaces, both
      replacements give the words joined by underscores, so the JavaScript
      and Python collection names agree. */
  lemma {:induction false} CollectionNamesAgree(ws: seq<string>)
    requires AllTokens(ws)
    ensures ReplaceRuns(Join(ws, " ")) == Join(ws, "_")
    ensures ReplaceSpaces(Join(ws, " ")) == Join(ws, "_")
  {
    if |ws| == 1 {
      ReplaceRunsToken(ws[0], "");
      ReplaceSpacesToken(ws[0]);
      assert ws[0] + "" == ws[0];
    } else if |ws| > 1 {
      var rest := Join(ws[1..], " ");
      CollectionNamesAgree(ws[1..]);
      JoinTrimmed(ws[1..]);
      assert ws[0] + " " + rest == ws[0] + (" " + rest);
      ReplaceRunsToken(ws[0], " " + rest);
      assert SpaceLen(" " + rest) == 1 by {
        assert (" " + rest)[1..] == rest;
      }
      assert (" " + rest)[1..] == rest;
      ReplaceSpacesAppend(ws[0], " " + rest);
      ReplaceSpacesAppend(" ", rest);
      ReplaceSpacesToken(ws[0]);
      assert ws[0] + "_" + Join(ws[1..], "_") == ws[0] + ("_" + Join(ws[1..], "_"));
    }
  }

  /** On a name of tokens separated by blank runs, JavaScript's
      `replace(/\s+/g, '_')` and Python's `replace(' ', '_')` give the same
      collection name exactly when every separator is one space: a double
      space or a tab makes them part ways ("Oak  Lawn" becomes "Oak_Lawn" in
      one and "Oak__Lawn" in the other). */
  lemma {:induction false} ReplacementsAgree(w: string, ws: seq<string>, gaps: seq<string>)
    requires IsToken(w) && AllTokens(ws) && |gaps| == |ws| && Gaps(gaps)
    ensures ReplaceSpaces(Spaced(w, ws, gaps)) == ReplaceRuns(Spaced(w, ws, gaps))
            <==> forall i :: 0 <= i < |gaps| ==> gaps[i] == " "
    decreases |ws|
  {
    if ws == [] {
      ReplaceSpacesToken(w);
      ReplaceRunsToken(w, "");
      assert w + "" == w;
    } else {
      var t := Spaced(ws[0], ws[1..], gaps[1..]);
      assert Spaced(w, ws, gaps) == w + (gaps[0] + t);
      SpacedTrimmed(ws[0], ws[1..], gaps[1..]);
      ReplacementsStep(w, gaps[0], t);
      GapAgrees(gaps[0], t);
      ReplacementsAgree(ws[0], ws[1..], gaps[1..]);
      assert forall i :: 1 <= i < |gaps| ==> gaps[i] == gaps[1..][i - 1];
    }
  }

  /** Past a leading token, the two names agree exactly when they agree
      from the first gap on. */
  lemma ReplacementsStep(w: string, g: string, t: string)
    requires IsToken(w) && AllSpace(g) && g != [] && t != [] && !IsSpace(t[0])
    ensures ReplaceSpaces(w + (g + t)) == ReplaceRuns(w + (g + t))
            <==> ReplaceSpaces(g) + ReplaceSpaces(t) == "_" + ReplaceRuns(t)
  {
    ReplaceSpacesAppend(w, g + t);
    ReplaceSpacesAppend(g, t);
    ReplaceSpacesToken(w);
    ReplaceRunsToken(w, g + t);
    ReplaceRunsGap(g, t);
    CancelPrefix(w, ReplaceSpaces(g) + ReplaceSpaces(t), "_" + ReplaceRuns(t));
  }

  /** A gap gives the same text in both names only when it is one space. */
  lemma GapAgrees(g: string, t: string)
    requires AllSpace(g) && g != []
    ensures ReplaceSpaces(g) + ReplaceSpaces(t) == "_" + ReplaceRuns(t)
            <==> g == " " && ReplaceSpaces(t) == ReplaceRuns(t)
  {
    var x := ReplaceSpaces(g) + ReplaceSpaces(t);
    var y := "_" + ReplaceRuns(t);
    if g == " " {
      assert ReplaceSpaces(g) == "_";
      CancelPrefix("_", ReplaceSpaces(t), ReplaceRuns(t));
    } else if |g| == 1 {
      assert g == [g[0]] && g[0] != ' ';
      assert x[0] == g[0] && y[0] == '_';
    } else {
      assert |x| > |y|;
    }
  }

  lemma CancelPrefix(w: string, x: string, y: string)
    ensures w + x == w + y <==> x == y
  {
    if w + x == w + y {
      assert x == (w + x)[|w|..] && y == (w + y)[|w|..];
    }
  }

  // ---------------------------------------------------------------------------
  // The labelled-field regular expression `Label:\s*([^\n]+)`
  // ---------------------------------------------------------------------------

  /** Backtracking of the greedy `\s*` that starts at `j` and first ran to `w`:
      the largest position `p` in `[j, w]` at which `[^\n]` can match. */
  function CaptureStart(s: string, j: nat, w: nat): (r: Option<nat>)
    requires j <= w
    ensures r.Some? ==> j <= r.value <= w && r.value < |s| && s[r.value] != '\n'
    ensures r.Some? ==> forall p :: r.value < p <= w && p < |s| ==> s[p] == '\n'
    ensures r.None? ==> forall p :: j <= p <= w && p < |s| ==> s[p] == '\n'
    decreases w - j
  {
    if w < |s| && s[w] != '\n' then Some(w)
    else if w == j then None
    else CaptureStart(s, j, w - 1)
  }

  /** The trimmed capture of `tag\s*([^\n]+)` for a match starting at `i`,
      or None when no match starts there. */
  function MatchAt(s: string, tag: string, i: nat): (r: Option<string>)
    requires i <= |s|
    ensures r.Some? ==> tag <= s[i..] && '\n' !in r.value && Trimmed(r.value)
  {
    match LineAt(s, tag, i)
    case None => None
    case Some(line) =>
      TrimKeepsOut(line, '\n');
      Some(Trim(line))
  }

  /** The untrimmed capture `([^\n]+)` of a match at `i`: from the
      backtracked end of the blank run to the end of that line. */
  function LineAt(s: string, tag: string, i: nat): (r: Option<string>)
    requires i <= |s|
    ensures r.Some? ==> tag <= s[i..] && '\n' !in r.value
  {
    if !(tag <= s[i..]) then None
    else
      var j := i + |tag|;
      var k := j + SpaceLen(s[j..]);
      match CaptureStart(s, j, k)
      case None => None
      case Some(p) => Some(s[p..][..IndexOf(s[p..], '\n')])
  }

  /** Leftmost-match search, as `String.prototype.match` and `re.search` do. */
  function SearchFrom(s: string, tag: string, i: nat): (r: Option<string>)
    requires i <= |s|
    decreases |s| - i
  {
    match MatchAt(s, tag, i)
    case Some(v) => Some(v)
    case None => if i == |s| then None else SearchFrom(s, tag, i + 1)
  }

  /** `title.match(/Label\s*([^\n]+)/)` followed by `m[1].trim()` (JavaScript),
      or `re.search(...)` followed by `group(1).strip()` (Python); None when
      there is no match. */
  function LabelValue(s: string, tag: string): (r: Option<string>)
  {
    SearchFrom(s, tag, 0)
  }

  lemma {:induction false} SearchFromSound(s: string, tag: string, i: nat)
    requires i <= |s|
    ensures SearchFrom(s, tag, i).Some? ==>
      '\n' !in SearchFrom(s, tag, i).value && Trimmed(SearchFrom(s, tag, i).value)
    ensures (forall p :: i <= p <= |s| ==> !(tag <= s[p..])) ==> SearchFrom(s, tag, i).None?
    decreases |s| - i
  {
    if i < |s| {
      SearchFromSound(s, tag, i + 1);
    }
  }

  /** A found value is one trimmed line; a tag that never occurs gives None. */
  lemma LabelValueSound(s: string, tag: string)
    ensures LabelValue(s, tag).Some? ==>
      '\n' !in LabelValue(s, tag).value && Trimmed(LabelValue(s, tag).value)
    ensures (forall p :: 0 <= p <= |s| ==> !(tag <= s[p..])) ==> LabelValue(s, tag).None?
  {
    SearchFromSound(s, tag, 0);
  }

  lemma {:induction false} SearchFromSkip(s: string, tag: string, i: nat, i0: nat)
    requires i <= i0 <= |s|
    requires forall p :: i <= p < i0 ==> !(tag <= s[p..])
    ensures SearchFrom(s, tag, i) == SearchFrom(s, tag, i0)
    decreases i0 - i
  {
    if i < i0 {
      SearchFromSkip(s, tag, i + 1, i0);
    }
  }

  /** A tooltip `pre + tag + blanks + v + tb + rest`, where the tag does not
      occur earlier, `v` is a trimmed non-empty line, `tb` is trailing blanks
      on that line (spaces, tabs, a carriage return) and `rest` is empty or
      starts a new line, yields exactly `v`. */
  lemma LabelValueReads(s: string, pre: string, tag: string, sp: string, v: string, tb: string,
                        rest: string)
    requires s == pre + (tag + (sp + (v + (tb + rest))))
    requires forall p :: 0 <= p < |pre| ==> !(tag <= s[p..])
    requires AllSpace(sp)
    requires v != [] && Trimmed(v) && '\n' !in v
    requires AllSpace(tb) && '\n' !in tb
    requires rest == [] || rest[0] == '\n'
    ensures LabelValue(s, tag) == Some(v)
  {
    SearchFromSkip(s, tag, 0, |pre|);
    assert s[|pre|..] == tag + (sp + (v + (tb + rest)));
    MatchAtReads(s, tag, |pre|, sp, v, tb, rest);
  }

  lemma MatchAtReads(s: string, tag: string, i: nat, sp: string, v: string, tb: string, rest: string)
    requires i <= |s| && s[i..] == tag + (sp + (v + (tb + rest)))
    requires AllSpace(sp)
    requires v != [] && Trimmed(v) && '\n' !in v
    requires AllSpace(tb) && '\n' !in tb
    requires rest == [] || rest[0] == '\n'
    ensures MatchAt(s, tag, i) == Some(v)
  {
    var j := i + |tag|;
    var u := v + (tb + rest);
    assert tag <= s[i..];
    assert s[j..] == sp + u by {
      assert s[j..] == s[i..][|tag|..];
    }
    SpaceLenPrefix(sp, u);
    var k := j + SpaceLen(s[j..]);
    assert k == j + |sp|;
    assert s[k..] == u by {
      assert s[k..] == (sp + u)[|sp|..];
    }
    MatchAtAt(s, tag, i, k, v, tb, rest);
  }

  lemma MatchAtAt(s: string, tag: string, i: nat, k: nat, v: string, tb: string, rest: string)
    requires i <= |s| && tag <= s[i..] && k == i + |tag| + SpaceLen(s[i + |tag|..])
    requires k <= |s| && s[k..] == v + (tb + rest)
    requires v != [] && Trimmed(v) && '\n' !in v
    requires AllSpace(tb) && '\n' !in tb
    requires rest == [] || rest[0] == '\n'
    ensures MatchAt(s, tag, i) == Some(v)
  {
    var line := v + tb;
    assert s[k..] == line + rest;
    assert line[0] == v[0] && v[0] in v;
    assert '\n' !in line;
    MatchAtLine(s, tag, i, k, line, rest);
    assert Trim(line) == v by {
      assert "" + v + tb == line;
      TrimAround("", v, tb);
    }
  }

  /** The capture where the blank run after the tag ends is the rest of
      that line. */
  lemma MatchAtLine(s: string, tag: string, i: nat, k: nat, line: string, rest: string)
    requires i <= |s| && tag <= s[i..] && k == i + |tag| + SpaceLen(s[i + |tag|..])
    requires k <= |s| && s[k..] == line + rest
    requires line != [] && '\n' !in line
    requires rest == [] || rest[0] == '\n'
    ensures LineAt(s, tag, i) == Some(line)
  {
    var j := i + |tag|;
    assert CaptureStart(s, j, k) == Some(k) by {
      assert s[k] == line[0] by {
        assert s[k..][0] == s[k];
      }
      assert line[0] in line;
    }
    assert s[k..][..IndexOf(s[k..], '\n')] == line by {
      IndexOfAfterOrEnd(line, rest);
      assert (line + rest)[..|line|] == line;
    }
  }

  lemma {:induction false} SpaceLenPrefix(sp: string, t: string)
    requires AllSpace(sp) && (t == [] || !IsSpace(t[0]))
    ensures SpaceLen(sp + t) == |sp|
  {
    if |sp| > 0 {
      assert (sp + t)[1..] == sp[1..] + t;
      SpaceLenPrefix(sp[1..], t);
    } else {
      assert sp + t == t;
    }
  }

  lemma {:induction false} IndexOfAbsent(v: string, c: char)
    requires c !in v
    ensures IndexOf(v, c) == |v|
  {
    if |v| > 0 {
      assert v[1..] <= v[1..];
      assert forall x :: x in v[1..] ==> x in v;
      IndexOfAbsent(v[1..], c);
    }
  }

  lemma IndexOfAfterOrEnd(v: string, rest: string)
    requires '\n' !in v && (rest == [] || rest[0] == '\n')
    ensures IndexOf(v + rest, '\n') == |v|
  {
    if rest == [] {
      assert v + rest == v;
      IndexOfAbsent(v, '\n');
    } else {
      IndexOfAfter(v, rest, '\n');
    }
  }
}
