/**
 * String utilities with the meaning Python gives them: `str.isspace`,
 * `str.strip`, `str.split()` with no separator, `" ".join`, `str.lower`,
 * the `in` substring test and `str(int)`.
 */
module Text {

  /** Python's `str.isspace` for one character. */
  predicate IsSpace(c: char) {
    c == ' ' || ('\t' <= c <= '\r') || ('\U{1c}' <= c <= '\U{1f}') || c == '\U{85}' || c == '\U{a0}'
    || c == '\U{1680}' || ('\U{2000}' <= c <= '\U{200a}') || c == '\U{2028}' || c == '\U{2029}'
    || c == '\U{202f}' || c == '\U{205f}' || c == '\U{3000}'
  }

  predicate AllSpace(s: string) {
    forall i :: 0 <= i < |s| ==> IsSpace(s[i])
  }

  predicate NoSpace(s: string) {
    forall i :: 0 <= i < |s| ==> !IsSpace(s[i])
  }

  /** A word as `str.split()` yields it: non-empty and free of whitespace. */
  predicate Word(w: string) {
    |w| > 0 && NoSpace(w)
  }

  predicate AllWords(ws: seq<string>) {
    forall k :: 0 <= k < |ws| ==> Word(ws[k])
  }

  // ---------------------------------------------------------------------
  // strip

  function TrimLeft(s: string): (r: string)
    ensures |r| <= |s| && r == s[|s| - |r|..]
    ensures r == [] <==> AllSpace(s)
    ensures r != [] ==> !IsSpace(r[0])
    decreases |s|
  {
    if s != [] && IsSpace(s[0]) then TrimLeft(s[1..]) else s
  }

  function TrimRight(s: string): (r: string)
    ensures |r| <= |s| && r == s[..|r|]
    ensures r == [] <==> AllSpace(s)
    ensures r != [] ==> !IsSpace(r[|r| - 1])
    decreases |s|
  {
    if s != [] && IsSpace(s[|s| - 1]) then TrimRight(s[..|s| - 1]) else s
  }

  /** Python's `str.strip()`: the result is a slice of `s`, empty exactly when `s`
      is all whitespace, and otherwise neither starts nor ends with whitespace. */
  function Strip(s: string): (r: string)
    ensures |r| <= |s|
    ensures r == [] <==> AllSpace(s)
    ensures r != [] ==> !IsSpace(r[0]) && !IsSpace(r[|r| - 1])
  {
    var l := TrimLeft(s);
    var r := TrimRight(l);
    assert r != [] ==> r[0] == l[0];
    assert l != [] ==> !AllSpace(l);
    r
  }

  /** A string that neither starts nor ends with whitespace is its own strip. */
  lemma StripUnchanged(s: string)
    requires s != [] ==> !IsSpace(s[0]) && !IsSpace(s[|s| - 1])
    ensures Strip(s) == s
  {
  }

  /** `s.strip().strip() == s.strip()`. */
  lemma StripIdempotent(s: string)
    ensures Strip(Strip(s)) == Strip(s)
  {
    StripUnchanged(Strip(s));
  }

  // ---------------------------------------------------------------------
  // split / join

  function Emit(cur: string): seq<string> {
    if cur == [] then [] else [cur]
  }

  /** `str.split()` scanning `s` with the word `cur` read so far. */
  function SplitFrom(s: string, cur: string): seq<string>
    decreases |s|
  {
    if s == [] then Emit(cur)
    else if IsSpace(s[0]) then Emit(cur) + SplitFrom(s[1..], [])
    else SplitFrom(s[1..], cur + [s[0]])
  }

  /** Python's `s.split()`: the maximal runs of non-whitespace characters. */
  function Split(s: string): seq<string> {
    SplitFrom(s, [])
  }

  /** Python's `" ".join(ws)`. */
  function Join(ws: seq<string>): string
    decreases |ws|
  {
    if ws == [] then []
    else if |ws| == 1 then ws[0]
    else ws[0] + " " + Join(ws[1..])
  }

  /** A string in the form `" ".join(s.split())` produces: every whitespace
      character is a plain space that is neither first nor last and is
      followed by a non-space. */
  predicate Collapsed(r: string) {
    forall i :: 0 <= i < |r| && IsSpace(r[i]) ==> r[i] == ' ' && 0 < i < |r| - 1 && !IsSpace(r[i + 1])
  }

  /** Trim and collapse every internal whitespace run to one space. */
  function Squeeze(s: string): string {
    Join(Split(s))
  }

  lemma {:induction false} SplitFromWord(w: string, rest: string, cur: string)
    requires NoSpace(w)
    ensures SplitFrom(w + rest, cur) == SplitFrom(rest, cur + w)
    decreases |w|
  {
    if w == [] {
      assert w + rest == rest;
      assert cur + w == cur;
    } else {
      assert (w + rest)[0] == w[0];
      assert (w + rest)[1..] == w[1..] + rest;
      SplitFromWord(w[1..], rest, cur + [w[0]]);
      assert cur + [w[0]] + w[1..] == cur + w;
    }
  }

  lemma {:induction false} JoinNonEmpty(ws: seq<string>)
    requires AllWords(ws)
    ensures Join(ws) == [] <==> ws == []
    ensures ws != [] ==> |Join(ws)| >= |ws[0]| && Join(ws)[..|ws[0]|] == ws[0]
    decreases |ws|
  {
    if |ws| > 1 {
      assert Word(ws[0]);
      assert (ws[0] + " " + Join(ws[1..]))[..|ws[0]|] == ws[0];
    } else if |ws| == 1 {
      assert Word(ws[0]);
    }
  }

  /** Splitting a joined list of words gives the words back. */
  lemma {:induction false} SplitJoin(ws: seq<string>)
    requires AllWords(ws)
    ensures Split(Join(ws)) == ws
    decreases |ws|
  {
    if ws == [] {
    } else if |ws| == 1 {
      assert Word(ws[0]);
      SplitFromWord(ws[0], [], []);
      assert ws[0] + [] == ws[0];
      assert [] + ws[0] == ws[0];
    } else {
      var w := ws[0];
      assert Word(w);
      var tail := Join(ws[1..]);
      assert AllWords(ws[1..]) by {
        forall k | 0 <= k < |ws[1..]| ensures Word(ws[1..][k]) { assert ws[1..][k] == ws[k + 1]; }
      }
      assert Join(ws) == w + (" " + tail);
      SplitFromWord(w, " " + tail, []);
      assert [] + w == w;
      assert (" " + tail)[0] == ' ';
      assert (" " + tail)[1..] == tail;
      assert SplitFrom(" " + tail, w) == Emit(w) + SplitFrom(tail, []);
      SplitJoin(ws[1..]);
      assert ws == [w] + ws[1..];
    }
  }

  lemma {:induction false} SplitFromWords(s: string, cur: string)
    requires NoSpace(cur)
    ensures AllWords(SplitFrom(s, cur))
    decreases |s|
  {
    if s == [] {
    } else if IsSpace(s[0]) {
      SplitFromWords(s[1..], []);
    } else {
      assert NoSpace(cur + [s[0]]) by {
        forall i | 0 <= i < |cur + [s[0]]| ensures !IsSpace((cur + [s[0]])[i]) {
          if i < |cur| { assert (cur + [s[0]])[i] == cur[i]; }
        }
      }
      SplitFromWords(s[1..], cur + [s[0]]);
    }
  }

  /** Every piece `str.split()` returns is a word. */
  lemma SplitWords(s: string)
    ensures AllWords(Split(s))
  {
    SplitFromWords(s, []);
  }

  lemma {:induction false} SplitFromEmpty(s: string, cur: string)
    ensures SplitFrom(s, cur) == [] <==> cur == [] && AllSpace(s)
    decreases |s|
  {
    if s == [] {
    } else if IsSpace(s[0]) {
      SplitFromEmpty(s[1..], []);
      assert AllSpace(s) <==> AllSpace(s[1..]) by {
        if AllSpace(s[1..]) {
          forall i | 0 <= i < |s| ensures IsSpace(s[i]) { if i > 0 { assert s[i] == s[1..][i - 1]; } }
        }
        if AllSpace(s) {
          forall i | 0 <= i < |s[1..]| ensures IsSpace(s[1..][i]) { assert s[1..][i] == s[i + 1]; }
        }
      }
    } else {
      SplitFromEmpty(s[1..], cur + [s[0]]);
      assert !AllSpace(s) by { assert !IsSpace(s[0]); }
    }
  }

  lemma {:induction false} JoinCollapsed(ws: seq<string>)
    requires AllWords(ws)
    ensures Collapsed(Join(ws))
    decreases |ws|
  {
    if |ws| == 1 {
      assert Word(ws[0]);
    } else if |ws| > 1 {
      var w := ws[0];
      assert Word(w);
      var rest := ws[1..];
      assert AllWords(rest) by {
        forall k | 0 <= k < |rest| ensures Word(rest[k]) { assert rest[k] == ws[k + 1]; }
      }
      var t := Join(rest);
      JoinCollapsed(rest);
      JoinNonEmpty(rest);
      assert !IsSpace(t[0]);
      var r := w + " " + t;
      assert r == Join(ws);
      assert forall i | 0 <= i < |w| :: r[i] == w[i];
      assert forall i | |w| < i < |r| :: r[i] == t[i - |w| - 1];
      assert r[|w|] == ' ' && r[|w| + 1] == t[0];
    }
  }

  /** `" ".join(s.split())` leaves no whitespace at the ends and no run longer
      than one plain space. */
  lemma SqueezeCollapsed(s: string)
    ensures Collapsed(Squeeze(s))
  {
    SplitWords(s);
    JoinCollapsed(Split(s));
  }

  /** Collapsing keeps exactly the words of the input. */
  lemma SqueezeKeepsWords(s: string)
    ensures Split(Squeeze(s)) == Split(s)
  {
    SplitWords(s);
    SplitJoin(Split(s));
  }

  /** Collapsing twice is collapsing once. */
  lemma SqueezeIdempotent(s: string)
    ensures Squeeze(Squeeze(s)) == Squeeze(s)
  {
    SqueezeKeepsWords(s);
  }

  /** The collapsed string is empty exactly when the input is all whitespace. */
  lemma SqueezeEmpty(s: string)
    ensures Squeeze(s) == [] <==> AllSpace(s)
  {
    SplitWords(s);
    JoinNonEmpty(Split(s));
    SplitFromEmpty(s, []);
  }

  // ---------------------------------------------------------------------
  // case folding and substrings

  /** Python's `str.lower` on one character, for ASCII and Latin-1 letters. */
  function LowerChar(c: char): (r: char)
    ensures r == c || ('A' <= c <= 'Z') || ('\U{c0}' <= c <= '\U{de}')
  {
    if 'A' <= c <= 'Z' || ('\U{c0}' <= c <= '\U{de}' && c != '\U{d7}') then (c as int + 32) as char else c
  }

  /** Python's `str.lower()`. */
  function Lower(s: string): (r: string)
    ensures |r| == |s|
    ensures forall i :: 0 <= i < |s| ==> r[i] == LowerChar(s[i])
  {
    seq(|s|, i requires 0 <= i < |s| => LowerChar(s[i]))
  }

  /** SQLite's built-in `lower()`, which folds ASCII letters only. */
  function LowerAscii(s: string): (r: string)
    ensures |r| == |s|
    ensures forall i :: 0 <= i < |s| ==> r[i] == (if 'A' <= s[i] <= 'Z' then (s[i] as int + 32) as char else s[i])
  {
    seq(|s|, i requires 0 <= i < |s| => if 'A' <= s[i] <= 'Z' then (s[i] as int + 32) as char else s[i])
  }

  predicate StartsWith(s: string, p: string) {
    |p| <= |s| && s[..|p|] == p
  }

  /** Python's `sub in s`. */
  predicate Contains(s: string, sub: string)
    decreases |s|
  {
    StartsWith(s, sub) || (s != [] && Contains(s[1..], sub))
  }

  /** `sub` occurs in `s` starting at position `i`. */
  predicate OccursAt(s: string, sub: string, i: int) {
    0 <= i <= |s| - |sub| && s[i..i + |sub|] == sub
  }

  /** `sub in s` holds exactly when `sub` occurs at some position of `s`. */
  lemma {:induction false} ContainsAt(s: string, sub: string)
    ensures Contains(s, sub) <==> exists i :: OccursAt(s, sub, i)
    decreases |s|
  {
    if StartsWith(s, sub) {
      assert OccursAt(s, sub, 0);
    }
    if s != [] {
      ContainsAt(s[1..], sub);
      if Contains(s[1..], sub) {
        var i :| OccursAt(s[1..], sub, i);
        assert s[i + 1..i + 1 + |sub|] == s[1..][i..i + |sub|];
        assert OccursAt(s, sub, i + 1);
      }
      if exists i :: OccursAt(s, sub, i) {
        var i :| OccursAt(s, sub, i);
        if i > 0 {
          assert s[1..][i - 1..i - 1 + |sub|] == s[i..i + |sub|];
          assert OccursAt(s[1..], sub, i - 1);
        }
      }
    }
  }

  // ---------------------------------------------------------------------
  // numbers as text

  function DigitChar(d: nat): (c: char)
    requires d < 10
    ensures '0' <= c <= '9' && c as int - '0' as int == d
  {
    ('0' as int + d) as char
  }

  /** `str(n)` for a natural number: its decimal digits, most significant first. */
  function NatToString(n: nat): (r: string)
    ensures |r| >= 1
    ensures forall i :: 0 <= i < |r| ==> '0' <= r[i] <= '9'
    ensures n > 0 ==> r[0] != '0'
    decreases n
  {
    if n < 10 then [DigitChar(n)] else NatToString(n / 10) + [DigitChar(n % 10)]
  }

  /** `str(i)` for an integer. */
  function IntToString(i: int): string {
    if i < 0 then "-" + NatToString(-i) else NatToString(i)
  }

  /** `n` written with at least `width` digits, zero-padded on the left. */
  function PadNat(n: nat, width: nat): (r: string)
    ensures |r| >= width
    ensures n < Pow10(width) && width >= 1 ==> |r| == width
  {
    var d := NatToString(n);
    NatToStringLength(n, width);
    if |d| >= width then d else ZeroPad(width - |d|) + d
  }

  function Pow10(k: nat): (p: nat)
    ensures p >= 1
  {
    if k == 0 then 1 else 10 * Pow10(k - 1)
  }

  /** A number below `10^k` has at most `k` digits. */
  lemma {:induction false} NatToStringLength(n: nat, k: nat)
    ensures k >= 1 && n < Pow10(k) ==> |NatToString(n)| <= k
    decreases k
  {
    if k >= 1 && n >= 10 {
      NatToStringLength(n / 10, k - 1);
    }
  }

  function ZeroPad(k: nat): (r: string)
    ensures |r| == k
  {
    seq(k, _ => '0')
  }

  predicate AllDigits(s: string) {
    forall i :: 0 <= i < |s| ==> '0' <= s[i] <= '9'
  }

  /** The number a string of decimal digits denotes, most significant first. */
  function DigitsValue(s: string): nat
    requires AllDigits(s)
    decreases |s|
  {
    if s == [] then 0 else DigitsValue(s[..|s| - 1]) * 10 + (s[|s| - 1] as int - '0' as int)
  }

  /** Reading back the digits `str(n)` wrote gives `n`. */
  lemma {:induction false} NatToStringValue(n: nat)
    ensures AllDigits(NatToString(n)) && DigitsValue(NatToString(n)) == n
    decreases n
  {
    if n >= 10 {
      NatToStringValue(n / 10);
      var r := NatToString(n);
      assert r[..|r| - 1] == NatToString(n / 10);
    }
  }
}
