/**
 * The text transformation of `update_metadata_version`: the global substitution
 * of `/(version\s+['"])[0-9\.]+(['"])/` by the first group, the new version and
 * the second group, applied to the whole metadata file.
 */
module Metadata {
  import opened Options

  /** Ruby's `\s`: space, tab, line feed, vertical tab, form feed, carriage return. */
  predicate IsRegexSpace(c: char) { c == ' ' || '\t' <= c <= '\r' }

  /** The class `['"]`. */
  predicate IsQuote(c: char) { c == '\'' || c == '"' }

  /** The class `[0-9\.]`. */
  predicate IsLiteralChar(c: char) { '0' <= c <= '9' || c == '.' }

  /** A non-empty run of `[0-9\.]`, the shape of a version literal in the file. */
  predicate IsLiteral(s: string)
  {
    s != [] && forall k :: 0 <= k < |s| ==> IsLiteralChar(s[k])
  }

  const Keyword: string := "version"

  /**
   * The pattern matches `s[..close + 1]`: `s[..open]` is the first group (keyword,
   * whitespace, opening quote), `s[open..close]` the version literal and `s[close]`
   * the second group (closing quote).
   */
  predicate IsMatch(s: string, open: nat, close: nat)
  {
    && 9 <= open < close < |s|
    && s[..7] == Keyword
    && (forall k :: 7 <= k < open - 1 ==> IsRegexSpace(s[k]))
    && IsQuote(s[open - 1])
    && (forall k :: open <= k < close ==> IsLiteralChar(s[k]))
    && IsQuote(s[close])
  }

  /** Where the groups of a match at the start of the text end. */
  datatype Match = Match(open: nat, close: nat)

  /** The two repeated character classes of the pattern, `\s` and `[0-9\.]`. */
  datatype CharClass = Spaces | Literals

  predicate InClass(c: char, cls: CharClass)
  {
    match cls
    case Spaces => IsRegexSpace(c)
    case Literals => IsLiteralChar(c)
  }

  /** The length of the longest run of `cls` characters starting at `i`. */
  function Span(s: string, i: nat, cls: CharClass): (n: nat)
    requires i <= |s|
    ensures i + n <= |s|
    decreases |s| - i
  {
    if i < |s| && InClass(s[i], cls) then 1 + Span(s, i + 1, cls) else 0
  }

  /** The run `Span` measures is made of `cls` characters and stops at the end or at a character outside `cls`. */
  lemma {:induction false} SpanShape(s: string, i: nat, cls: CharClass)
    requires i <= |s|
    ensures forall k :: i <= k < i + Span(s, i, cls) ==> InClass(s[k], cls)
    ensures i + Span(s, i, cls) == |s| || !InClass(s[i + Span(s, i, cls)], cls)
    decreases |s| - i
  {
    if i < |s| && InClass(s[i], cls) {
      SpanShape(s, i + 1, cls);
    }
  }

  /**
   * Tries the pattern at the start of `s`. Both `\s+` and `[0-9\.]+` are greedy and
   * are followed by a quote, which neither class contains, so taking the longest
   * runs is the only way the pattern can match.
   */
  function MatchAt(s: string): Option<Match>
  {
    if |s| < 7 || s[..7] != Keyword then None
    else
      var w := Span(s, 7, Spaces);
      var open := 7 + w + 1;
      if w == 0 || open > |s| || !IsQuote(s[open - 1]) then None
      else
        var n := Span(s, open, Literals);
        var close := open + n;
        if n == 0 || close >= |s| || !IsQuote(s[close]) then None
        else Some(Match(open, close))
  }

  /** Whatever `MatchAt` finds is a match of the pattern. */
  lemma MatchAtSound(s: string)
    ensures MatchAt(s).Some? ==> IsMatch(s, MatchAt(s).value.open, MatchAt(s).value.close)
  {
    if MatchAt(s).Some? {
      var m := MatchAt(s).value;
      SpanShape(s, 7, Spaces);
      SpanShape(s, m.open, Literals);
    }
  }

  /** A run that ends where the class stops has the length `Span` finds. */
  lemma {:induction false} SpanExact(s: string, i: nat, j: nat, cls: CharClass)
    requires i <= j < |s|
    requires forall k :: i <= k < j ==> InClass(s[k], cls)
    requires !InClass(s[j], cls)
    ensures Span(s, i, cls) == j - i
    decreases j - i
  {
    if i < j {
      SpanExact(s, i + 1, j, cls);
    }
  }

  /** Whenever the pattern matches at the start of `s`, `MatchAt` finds exactly that match. */
  lemma MatchAtComplete(s: string, open: nat, close: nat)
    requires IsMatch(s, open, close)
    ensures MatchAt(s) == Some(Match(open, close))
  {
    SpanExact(s, 7, open - 1, Spaces);
    SpanExact(s, open, close, Literals);
  }

  /** Whether the pattern matches depends only on the characters it covers. */
  lemma MatchIsLocal(s: string, t: string, open: nat, close: nat)
    requires IsMatch(s, open, close)
    requires close < |t| && s[..close + 1] == t[..close + 1]
    ensures IsMatch(t, open, close)
  {
    forall k | 0 <= k <= close ensures t[k] == s[k] {
      assert t[k] == t[..close + 1][k];
    }
    assert t[..7] == s[..7];
  }

  /** A match starts with the keyword's `v`, and that is the only `v` it contains. */
  lemma MatchHasOneV(s: string, open: nat, close: nat)
    requires IsMatch(s, open, close)
    ensures s[0] == 'v'
    ensures forall k :: 1 <= k <= close ==> s[k] != 'v'
  {
    assert s[0] == s[..7][0];
    forall k | 1 <= k < 7 ensures s[k] != 'v' {
      assert s[k] == s[..7][k];
    }

  }

  /**
   * `s.gsub(pattern, "\\1" + version + "\\2")`: scanning left to right, each match
   * keeps its groups and has its literal replaced by `version`; the scan resumes
   * after the closing quote, so matches do not overlap.
   */
  function Rewrite(s: string, version: string): string
    decreases |s|
  {
    if s == [] then []
    else
      match MatchAt(s)
      case Some(m) => s[..m.open] + version + [s[m.close]] + Rewrite(s[m.close + 1..], version)
      case None => [s[0]] + Rewrite(s[1..], version)
  }

  /** At a match, the groups are kept, the literal replaced and the scan resumes after the closing quote. */
  lemma RewriteAtMatch(s: string, version: string, open: nat, close: nat)
    requires MatchAt(s) == Some(Match(open, close))
    ensures Rewrite(s, version) == s[..open] + version + [s[close]] + Rewrite(s[close + 1..], version)
  {
  }

  /** Where no match starts, the first character is copied and the scan moves on by one. */
  lemma RewriteAtNoMatch(s: string, version: string)
    requires s != [] && MatchAt(s).None?
    ensures Rewrite(s, version) == [s[0]] + Rewrite(s[1..], version)
  {
  }

  /** The output of a match starts with the keyword's `v`. */
  lemma RewriteStartsWithV(s: string, version: string)
    requires MatchAt(s).Some?
    ensures var r := Rewrite(s, version); r != [] && r[0] == 'v'
  {
    var m := MatchAt(s).value;
    RewriteAtMatch(s, version, m.open, m.close);
    MatchAtSound(s);
    MatchHasOneV(s, m.open, m.close);
    assert Rewrite(s, version)[0] == s[..m.open][0];
  }

  /** No match starts before position `k`. */
  ghost predicate NoMatchBefore(s: string, k: nat)
    requires k <= |s|
  {
    forall p :: 0 <= p < k ==> MatchAt(s[p..]).None?
  }

  /** The text before the first match is copied unchanged. */
  lemma {:induction false} RewriteSkips(s: string, version: string, k: nat)
    requires k <= |s| && NoMatchBefore(s, k)
    ensures Rewrite(s, version) == s[..k] + Rewrite(s[k..], version)
  {
    if k > 0 {
      assert MatchAt(s[0..]).None?;
      assert s[0..] == s;
      forall p | 0 <= p < k - 1 ensures MatchAt(s[1..][p..]).None? {
        assert s[1..][p..] == s[p + 1..];
      }
      RewriteSkips(s[1..], version, k - 1);
      assert s[1..][k - 1..] == s[k..];
      assert [s[0]] + s[1..][..k - 1] == s[..k];
    }
  }

  /** Text in which the pattern matches nowhere is returned unchanged. */
  lemma RewriteNoMatch(s: string, version: string)
    requires NoMatchBefore(s, |s|)
    ensures Rewrite(s, version) == s
  {
    RewriteSkips(s, version, |s|);
    assert s[|s|..] == [];
  }

  /**
   * A file with a single declaration, at position `k`: only its literal
   * `s[k + open..k + close]` is replaced; the keyword, the whitespace, both quotes
   * and all other text are kept.
   */
  lemma RewriteSingleDeclaration(s: string, version: string, k: nat, open: nat, close: nat)
    requires k <= |s| && NoMatchBefore(s, k)
    requires IsMatch(s[k..], open, close)
    requires forall p :: k + close < p < |s| ==> MatchAt(s[p..]).None?
    ensures Rewrite(s, version) == s[..k + open] + version + s[k + close..]
  {
    var t := s[k..];
    var rest := s[k + close + 1..];
    RewriteSkips(s, version, k);
    MatchAtComplete(t, open, close);
    NoMatchInSuffix(s, k + close + 1);
    RewriteNoMatch(rest, version);
    assert t[close + 1..] == rest;
    RewriteMatchThen(t, version, open, close, rest);
    Regroup(s, version, k, open, close);
  }

  /** A match followed by text that rewrites to `rest`. */
  lemma RewriteMatchThen(t: string, version: string, open: nat, close: nat, rest: string)
    requires MatchAt(t) == Some(Match(open, close))
    requires Rewrite(t[close + 1..], version) == rest
    ensures Rewrite(t, version) == t[..open] + version + [t[close]] + rest
  {
    RewriteAtMatch(t, version, open, close);
  }

  /** The slicing arithmetic behind `RewriteSingleDeclaration`. */
  lemma Regroup(s: string, version: string, k: nat, open: nat, close: nat)
    requires k + open <= k + close < |s|
    ensures var t := s[k..];
      s[..k] + (t[..open] + version + [t[close]] + s[k + close + 1..]) == s[..k + open] + version + s[k + close..]
  {
    var t := s[k..];
    assert s[..k] + t[..open] == s[..k + open];
    assert [t[close]] + s[k + close + 1..] == s[k + close..];
  }

  lemma NoMatchInSuffix(s: string, i: nat)
    requires i <= |s|
    requires forall p :: i <= p < |s| ==> MatchAt(s[p..]).None?
    ensures NoMatchBefore(s[i..], |s| - i)
  {
    forall p | 0 <= p < |s| - i ensures MatchAt(s[i..][p..]).None? {
      assert s[i..][p..] == s[i + p..];
    }
  }

  /**
   * Until the first `v` of the rewritten text, the rewrite has copied the original:
   * every change begins at a match, and the output of a match begins with `v`.
   */
  lemma {:induction false} RewriteAgrees(t: string, version: string, n: nat)
    requires n <= |Rewrite(t, version)|
    requires forall k :: 0 <= k < n ==> Rewrite(t, version)[k] != 'v'
    ensures n <= |t| && t[..n] == Rewrite(t, version)[..n]
    decreases |t|
  {
    if t != [] && n > 0 {
      var r := Rewrite(t, version);
      if MatchAt(t).Some? {
        RewriteStartsWithV(t, version);
        assert false;
      } else {
        var r' := Rewrite(t[1..], version);
        RewriteAtNoMatch(t, version);
        forall k | 0 <= k < n - 1 ensures r'[k] != 'v' {
          assert r'[k] == r[k + 1];
        }
        RewriteAgrees(t[1..], version, n - 1);
        assert t[..n] == [t[0]] + t[1..][..n - 1];
        assert r[..n] == [t[0]] + r'[..n - 1];
      }
    }
  }

  /** Replacing the literal of a match by another literal leaves a match around the new literal. */
  lemma LiteralSwapKeepsMatch(s: string, open: nat, close: nat, version: string, tail: string)
    requires IsMatch(s, open, close) && IsLiteral(version)
    ensures IsMatch(s[..open] + version + [s[close]] + tail, open, open + |version|)
  {
    var r := s[..open] + version + [s[close]] + tail;
    var close' := open + |version|;
    assert r[..7] == s[..7];
    forall k | 7 <= k < open - 1 ensures IsRegexSpace(r[k]) {
      assert r[k] == s[k];
    }
    forall k | open <= k < close' ensures IsLiteralChar(r[k]) {
      assert r[k] == version[k - open];
    }
    assert r[open - 1] == s[open - 1];
    assert r[close'] == s[close];
  }

  /** Copying a character where no match starts cannot produce a match there. */
  lemma CopyMakesNoMatch(s: string, version: string, open: nat, close: nat)
    requires s != [] && MatchAt(s).None?
    ensures !IsMatch([s[0]] + Rewrite(s[1..], version), open, close)
  {
    var tail := Rewrite(s[1..], version);
    var r := [s[0]] + tail;
    if IsMatch(r, open, close) {
      MatchHasOneV(r, open, close);
      forall k | 0 <= k < close ensures tail[k] != 'v' {
        assert tail[k] == r[k + 1];
      }
      RewriteAgrees(s[1..], version, close);
      assert s[..close + 1] == r[..close + 1] by {
        assert s[..close + 1] == [s[0]] + s[1..][..close];
        assert r[..close + 1] == [s[0]] + tail[..close];
      }
      MatchIsLocal(r, s, open, close);
      MatchAtComplete(s, open, close);
      assert false;
    }
  }

  /** A rewrite does not create a match at a position where the original had none. */
  lemma RewriteAddsNoMatch(s: string, version: string)
    requires s != [] && MatchAt(s).None?
    ensures MatchAt(Rewrite(s, version)).None?
    ensures Rewrite(s, version) != [] && Rewrite(s, version)[0] == s[0]
    ensures Rewrite(s, version)[1..] == Rewrite(s[1..], version)
  {
    var r := Rewrite(s, version);
    RewriteAtNoMatch(s, version);
    if MatchAt(r).Some? {
      MatchAtSound(r);
      CopyMakesNoMatch(s, version, MatchAt(r).value.open, MatchAt(r).value.close);
    }
    assert r[1..] == Rewrite(s[1..], version);
  }

  /** After a rewrite to a literal, a match of the original is still a match, now around the new literal. */
  lemma RewriteKeepsMatch(s: string, version: string)
    requires IsLiteral(version) && MatchAt(s).Some?
    ensures var m := MatchAt(s).value; var r := Rewrite(s, version); var close' := m.open + |version|;
      && close' < |r|
      && MatchAt(r) == Some(Match(m.open, close'))
      && r[..m.open] == s[..m.open] && r[close'] == s[m.close]
      && r[close' + 1..] == Rewrite(s[m.close + 1..], version)
  {
    var m := MatchAt(s).value;
    var tail := Rewrite(s[m.close + 1..], version);
    var r := s[..m.open] + version + [s[m.close]] + tail;
    RewriteAtMatch(s, version, m.open, m.close);
    MatchAtSound(s);
    assert Rewrite(s, version) == r;
    LiteralSwapKeepsMatch(s, m.open, m.close, version, tail);
    MatchAtComplete(r, m.open, m.open + |version|);
    assert r[..m.open] == s[..m.open];
    assert r[m.open + |version| + 1..] == tail;
  }

  /**
   * Rewriting to `version` and then to `other` gives the same text as rewriting to
   * `other` directly: the first rewrite changes nothing but the literals, and it
   * neither creates nor removes a match.
   */
  lemma {:induction false} RewriteOverwrites(s: string, version: string, other: string)
    requires IsLiteral(version)
    ensures Rewrite(Rewrite(s, version), other) == Rewrite(s, other)
    decreases |s|
  {
    if s != [] {
      var r := Rewrite(s, version);
      if MatchAt(s).Some? {
        var m := MatchAt(s).value;
        var close' := m.open + |version|;
        RewriteKeepsMatch(s, version);
        RewriteOverwrites(s[m.close + 1..], version, other);
        OverwriteAtMatch(s, r, other, m.open, m.close, close');
      } else {
        RewriteAddsNoMatch(s, version);
        RewriteOverwrites(s[1..], version, other);
        OverwriteAtNoMatch(s, r, other);
      }
    }
  }

  /** The step of `RewriteOverwrites` at a match: `r` has a match at the same place with the same groups. */
  lemma OverwriteAtMatch(s: string, r: string, other: string, open: nat, close: nat, close': nat)
    requires MatchAt(s) == Some(Match(open, close)) && MatchAt(r) == Some(Match(open, close'))
    requires r[..open] == s[..open] && r[close'] == s[close]
    requires Rewrite(r[close' + 1..], other) == Rewrite(s[close + 1..], other)
    ensures Rewrite(r, other) == Rewrite(s, other)
  {
    RewriteAtMatch(r, other, open, close');
    RewriteAtMatch(s, other, open, close);
  }

  /** The step of `RewriteOverwrites` where no match starts: `r` copies the same first character. */
  lemma OverwriteAtNoMatch(s: string, r: string, other: string)
    requires s != [] && MatchAt(s).None? && r != [] && MatchAt(r).None? && r[0] == s[0]
    requires Rewrite(r[1..], other) == Rewrite(s[1..], other)
    ensures Rewrite(r, other) == Rewrite(s, other)
  {
    RewriteAtNoMatch(r, other);
    RewriteAtNoMatch(s, other);
  }

  /** Rewriting twice to the same version literal gives the text of rewriting once. */
  lemma RewriteIdempotent(s: string, version: string)
    requires IsLiteral(version)
    ensures Rewrite(Rewrite(s, version), version) == Rewrite(s, version)
  {
    RewriteOverwrites(s, version, version);
  }
}
