/**
 * The parts of Ruby's String and Integer behaviour that the plugin relies on:
 * `String#split` with a one-character separator, `Array#join`, `String#to_i` on
 * strings of decimal digits, `Integer#to_s`, and `String#strip`.
 */
module RubyText {

  predicate IsDigit(c: char) { '0' <= c <= '9' }

  predicate IsDigits(s: string) { forall k :: 0 <= k < |s| ==> IsDigit(s[k]) }

  predicate IsLetter(c: char) { 'a' <= c <= 'z' || 'A' <= c <= 'Z' }

  predicate IsLetters(s: string) { forall k :: 0 <= k < |s| ==> IsLetter(s[k]) }

  predicate EndsWith(s: string, c: char) { s != [] && s[|s| - 1] == c }

  // ---------------------------------------------------------------------------
  // String#split and Array#join
  // ---------------------------------------------------------------------------

  /** The raw fields of `s` between occurrences of `sep`: at least one, possibly empty. */
  function Fields(s: string, sep: char): (fs: seq<string>)
    ensures |fs| >= 1
  {
    if s == [] then [[]]
    else
      var rest := Fields(s[1..], sep);
      if s[0] == sep then [[]] + rest
      else [[s[0]] + rest[0]] + rest[1..]
  }

  /** No field holds the separator. */
  lemma {:induction false} FieldsShape(s: string, sep: char)
    ensures forall k :: 0 <= k < |Fields(s, sep)| ==> sep !in Fields(s, sep)[k]
  {
    if s != [] {
      FieldsShape(s[1..], sep);
      var rest := Fields(s[1..], sep);
      var fs := Fields(s, sep);
      forall k | 0 <= k < |fs| ensures sep !in fs[k] {
        if s[0] == sep {
          if k > 0 {
            assert fs[k] == rest[k - 1];
          } else {
            assert fs[0] == [];
          }
        } else if k == 0 {
          assert fs[0] == [s[0]] + rest[0];
          assert sep !in rest[0];
          assert sep !in [s[0]];
        } else {
          assert fs[k] == rest[k];
        }
      }
    }
  }

  /** Removes the empty fields at the end, as `String#split` does when given no limit. */
  function DropTrailingEmpty(fs: seq<string>): seq<string>
  {
    if fs != [] && fs[|fs| - 1] == [] then DropTrailingEmpty(fs[..|fs| - 1]) else fs
  }

  /** What is kept is a prefix that ends with a non-empty field, and only empty fields are dropped. */
  lemma {:induction false} DropTrailingEmptyShape(fs: seq<string>)
    ensures var r := DropTrailingEmpty(fs);
      && r <= fs
      && (r == [] || r[|r| - 1] != [])
      && forall k :: |r| <= k < |fs| ==> fs[k] == []
  {
    if fs != [] && fs[|fs| - 1] == [] {
      DropTrailingEmptyShape(fs[..|fs| - 1]);
    }
  }

  /**
   * `s.split(sep)` for a separator that is one non-space character: the fields
   * between separators, leading and inner empty fields kept, trailing ones dropped
   * (so `"".split('.')` is empty and `"1.2.3.".split('.')` has three parts).
   */
  function Split(s: string, sep: char): seq<string>
  {
    DropTrailingEmpty(Fields(s, sep))
  }

  /** No part of a split holds the separator, and the last part is not empty. */
  lemma SplitShape(s: string, sep: char)
    ensures var parts := Split(s, sep);
      && (forall k :: 0 <= k < |parts| ==> sep !in parts[k])
      && (parts == [] || parts[|parts| - 1] != [])
  {
    var fs := Fields(s, sep);
    var parts := Split(s, sep);
    FieldsShape(s, sep);
    DropTrailingEmptyShape(fs);
    forall k | 0 <= k < |parts| ensures sep !in parts[k] {
      assert parts == fs[..|parts|];
      assert parts[k] == fs[k];
    }
  }

  /** `parts.join(sep)`. */
  function Join(parts: seq<string>, sep: char): string
  {
    if parts == [] then []
    else if |parts| == 1 then parts[0]
    else parts[0] + [sep] + Join(parts[1..], sep)
  }

  /** A join of three parts. */
  lemma Join3(x: string, y: string, z: string, sep: char)
    ensures Join([x, y, z], sep) == x + [sep] + y + [sep] + z
  {
    assert [x, y, z][1..] == [y, z];
    assert [y, z][1..] == [z];
    assert Join([y, z], sep) == y + [sep] + z;
    assert Join([x, y, z], sep) == x + [sep] + (y + [sep] + z);
  }

  /** Joining the raw fields gives back the string they came from. */
  lemma {:induction false} JoinFields(s: string, sep: char)
    ensures Join(Fields(s, sep), sep) == s
  {
    if s != [] {
      JoinFields(s[1..], sep);
      var rest := Fields(s[1..], sep);
      var fs := Fields(s, sep);
      if s[0] == sep {
        assert fs[1..] == rest;
      } else if |rest| > 1 {
        assert fs[1..] == rest[1..];
      }
    }
  }

  /** Splitting `p + t`, where `p` holds no separator, extends the first field of `t` by `p`. */
  lemma {:induction false} FieldsAfterPlain(p: string, t: string, sep: char)
    requires sep !in p
    ensures Fields(p + t, sep) == [p + Fields(t, sep)[0]] + Fields(t, sep)[1..]
  {
    if p == [] {
      var ft := Fields(t, sep);
      assert p + t == t && p + ft[0] == ft[0];
      assert ft == [ft[0]] + ft[1..];
    } else {
      FieldsAfterPlain(p[1..], t, sep);
      assert (p + t)[1..] == p[1..] + t;
      var ft := Fields(t, sep);
      var rest := Fields(p[1..] + t, sep);
      assert rest[0] == p[1..] + ft[0] && rest[1..] == ft[1..];
      assert (p + t)[0] == p[0] != sep;
      assert Fields(p + t, sep) == [[p[0]] + rest[0]] + rest[1..];
      assert [p[0]] + (p[1..] + ft[0]) == p + ft[0];
    }
  }

  /** The raw fields of a join of separator-free parts are those parts. */
  lemma {:induction false} FieldsJoin(parts: seq<string>, sep: char)
    requires |parts| >= 1
    requires forall k :: 0 <= k < |parts| ==> sep !in parts[k]
    ensures Fields(Join(parts, sep), sep) == parts
  {
    if |parts| == 1 {
      FieldsAfterPlain(parts[0], [], sep);
      assert parts[0] + [] == parts[0];
    } else {
      FieldsJoin(parts[1..], sep);
      var t := [sep] + Join(parts[1..], sep);
      FieldsAfterPlain(parts[0], t, sep);
      assert Join(parts, sep) == parts[0] + t;
      assert t[0] == sep && t[1..] == Join(parts[1..], sep);
      assert Fields(t, sep) == [[]] + parts[1..];
      assert parts[0] + [] == parts[0];
      assert parts == [parts[0]] + parts[1..];
    }
  }

  /** Split undoes Join for separator-free parts whose last part is not empty. */
  lemma SplitJoin(parts: seq<string>, sep: char)
    requires forall k :: 0 <= k < |parts| ==> sep !in parts[k]
    requires parts == [] || parts[|parts| - 1] != []
    ensures Split(Join(parts, sep), sep) == parts
  {
    if parts != [] {
      FieldsJoin(parts, sep);
    } else {
      assert DropTrailingEmpty([[]]) == DropTrailingEmpty([]);
    }
  }

  /** The last raw field is empty exactly when the string is empty or ends with the separator. */
  lemma {:induction false} FieldsLastEmpty(s: string, sep: char)
    ensures var fs := Fields(s, sep); fs[|fs| - 1] == [] <==> (s == [] || EndsWith(s, sep))
  {
    if s != [] {
      FieldsLastEmpty(s[1..], sep);
      var rest := Fields(s[1..], sep);
      if s[0] != sep && |rest| == 1 {
        JoinFields(s[1..], sep);
        FieldsShape(s[1..], sep);
        assert sep !in s[1..];
        if |s| > 1 {
          assert s[|s| - 1] == s[1..][|s| - 2];
        }
      }
    }
  }

  /** A join whose last part is not empty ends with that part's last character. */
  lemma {:induction false} JoinLast(parts: seq<string>, sep: char)
    requires parts != [] && parts[|parts| - 1] != []
    ensures var s := Join(parts, sep); var p := parts[|parts| - 1];
      s != [] && s[|s| - 1] == p[|p| - 1]
  {
    if |parts| > 1 {
      JoinLast(parts[1..], sep);
    }
  }

  /**
   * Splitting and re-joining gives the string back exactly when it does not end
   * with the separator (trailing separators are lost by the split).
   */
  lemma JoinSplit(s: string, sep: char)
    ensures Join(Split(s, sep), sep) == s <==> !EndsWith(s, sep)
  {
    var fs := Fields(s, sep);
    FieldsLastEmpty(s, sep);
    DropTrailingEmptyShape(fs);
    if !EndsWith(s, sep) {
      JoinFields(s, sep);
    } else {
      var parts := Split(s, sep);
      if parts != [] {
        JoinLast(parts, sep);
        SplitShape(s, sep);
      }
    }
  }

  // ---------------------------------------------------------------------------
  // String#to_i and Integer#to_s
  // ---------------------------------------------------------------------------

  /** `s.to_i` for a string of decimal digits; the empty string gives 0. */
  function DigitsValue(s: string): nat
    requires IsDigits(s)
  {
    if s == [] then 0
    else 10 * DigitsValue(s[..|s| - 1]) + (s[|s| - 1] as int - '0' as int)
  }

  /** `n.to_s`: the decimal numeral of `n`, without leading zeros. */
  function Decimal(n: nat): (s: string)
    ensures s != [] && IsDigits(s) && '.' !in s
    ensures s[0] == '0' ==> n == 0
  {
    if n < 10 then [('0' as int + n) as char]
    else Decimal(n / 10) + [('0' as int + n % 10) as char]
  }

  /** `n.to_s.to_i == n`. */
  lemma {:induction false} DecimalRoundTrip(n: nat)
    ensures DigitsValue(Decimal(n)) == n
  {
    if n >= 10 {
      DecimalRoundTrip(n / 10);
      var s := Decimal(n);
      assert s[..|s| - 1] == Decimal(n / 10);
    }
  }

  // ---------------------------------------------------------------------------
  // String#strip
  // ---------------------------------------------------------------------------

  /** The characters `String#strip` removes: NUL, tab, line feed, vertical tab, form feed, carriage return and space. */
  predicate IsSpace(c: char) { c == ' ' || '\t' <= c <= '\r' || c == '\0' }

  /** Removes the leading whitespace. */
  function TrimStart(s: string): string
  {
    if s != [] && IsSpace(s[0]) then TrimStart(s[1..]) else s
  }

  /** Removes the trailing whitespace. */
  function TrimEnd(s: string): string
  {
    if s != [] && IsSpace(s[|s| - 1]) then TrimEnd(s[..|s| - 1]) else s
  }

  /** What `TrimStart` keeps is the longest suffix that does not start with whitespace. */
  lemma {:induction false} TrimStartShape(s: string)
    ensures var r := TrimStart(s);
      && |r| <= |s| && r == s[|s| - |r|..]
      && (forall k :: 0 <= k < |s| - |r| ==> IsSpace(s[k]))
      && (r == [] || !IsSpace(r[0]))
  {
    if s != [] && IsSpace(s[0]) {
      TrimStartShape(s[1..]);
      var r := TrimStart(s);
      assert s[1..][|s| - 1 - |r|..] == s[|s| - |r|..];
      forall k | 0 <= k < |s| - |r| ensures IsSpace(s[k]) {
        if k > 0 {
          assert s[k] == s[1..][k - 1];
        }
      }
    }
  }

  /** What `TrimEnd` keeps is the longest prefix that does not end with whitespace. */
  lemma {:induction false} TrimEndShape(s: string)
    ensures var r := TrimEnd(s);
      && |r| <= |s| && r == s[..|r|]
      && (forall k :: |r| <= k < |s| ==> IsSpace(s[k]))
      && (r == [] || !IsSpace(r[|r| - 1]))
  {
    if s != [] && IsSpace(s[|s| - 1]) {
      TrimEndShape(s[..|s| - 1]);
      var r := TrimEnd(s);
      assert s[..|s| - 1][..|r|] == s[..|r|];
      forall k | |r| <= k < |s| ensures IsSpace(s[k]) {
        if k < |s| - 1 {
          assert s[k] == s[..|s| - 1][k];
        }
      }
    }
  }

  /** `s.strip`. */
  function Strip(s: string): string
  {
    TrimEnd(TrimStart(s))
  }

  /** What strip keeps is an infix of `s` with whitespace only around it, and neither end of it is whitespace. */
  lemma StripShape(s: string)
    ensures var r := Strip(s); var i := |s| - |TrimStart(s)|;
      && 0 <= i && i + |r| <= |s| && r == s[i..i + |r|]
      && (forall k :: 0 <= k < i ==> IsSpace(s[k]))
      && (forall k :: i + |r| <= k < |s| ==> IsSpace(s[k]))
      && (r == [] || (!IsSpace(r[0]) && !IsSpace(r[|r| - 1])))
  {
    var t := TrimStart(s);
    var r := TrimEnd(t);
    var i := |s| - |t|;
    TrimStartShape(s);
    TrimEndShape(t);
    assert t == s[i..];
    assert r == s[i..][..|r|];
    forall k | i + |r| <= k < |s| ensures IsSpace(s[k]) {
      assert s[k] == t[k - i];
    }
    if r != [] {
      assert r[0] == t[0];
    }
  }
}
