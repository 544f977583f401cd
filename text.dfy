/** Text operations the contacts queries and the contact rendering rely on:
    SQLite's ASCII-only lower(), the SQL LIKE operator (with '%' and '_'
    wildcards and no escape character), substring search, and the decimal
    rendering of integers used by Python's f-strings. */
module Text {
  import opened Wrappers

  /** SQLite's built-in lower() folds the ASCII letters A-Z and nothing else. */
  function LowerChar(ch: char): (r: char)
    ensures 'A' <= ch <= 'Z' ==> 'a' <= r <= 'z'
    ensures !('A' <= ch <= 'Z') ==> r == ch
  {
    if 'A' <= ch <= 'Z' then (ch as int + 32) as char else ch
  }

  function Lower(s: string): (r: string)
    ensures |r| == |s|
    ensures forall i :: 0 <= i < |s| ==> r[i] == LowerChar(s[i])
  {
    seq(|s|, i requires 0 <= i < |s| => LowerChar(s[i]))
  }

  /** A lower-case letter missing from the text in both cases is missing from its lower-casing. */
  lemma LowerLacks(s: string, ch: char)
    requires 'a' <= ch <= 'z' && ch !in s && (ch as int - 32) as char !in s
    ensures ch !in Lower(s)
  {
    forall i | 0 <= i < |s| ensures Lower(s)[i] != ch {
      assert s[i] in s;
    }
  }

  lemma LowerConcat(a: string, b: string)
    ensures Lower(a + b) == Lower(a) + Lower(b)
  {
  }

  /** `pattern` LIKE `s`, comparing characters exactly: '%' matches any run of
      characters (also none), '_' matches exactly one, every other character
      matches itself. */
  predicate Like(pattern: string, s: string)
    decreases |pattern| + |s|
  {
    if pattern == [] then s == []
    else if pattern[0] == '%' then Like(pattern[1..], s) || (s != [] && Like(pattern, s[1..]))
    else s != [] && (pattern[0] == '_' || pattern[0] == s[0]) && Like(pattern[1..], s[1..])
  }

  /** SQLAlchemy's `column.ilike(pattern)` on SQLite: lower(column) LIKE lower(pattern). */
  predicate ILike(s: string, pattern: string) {
    Like(Lower(pattern), Lower(s))
  }

  /** The filter `column.ilike(f"%{term}%")` used by every search. */
  predicate Contains(s: string, term: string) {
    ILike(s, "%" + term + "%")
  }

  predicate NoWildcards(s: string) {
    forall i :: 0 <= i < |s| ==> s[i] != '%' && s[i] != '_'
  }

  predicate IsPrefix(k: string, s: string) {
    |k| <= |s| && s[..|k|] == k
  }

  predicate IsSubstring(k: string, s: string)
    decreases |s|
  {
    IsPrefix(k, s) || (s != [] && IsSubstring(k, s[1..]))
  }

  /** `k` occurs in `s` starting at position `i`. */
  predicate OccursAt(k: string, s: string, i: int) {
    0 <= i <= |s| - |k| && s[i..i + |k|] == k
  }

  /** IsSubstring agrees with the positional definition of "k occurs in s". */
  lemma {:induction false} IsSubstringAt(k: string, s: string)
    ensures IsSubstring(k, s) <==> exists i :: OccursAt(k, s, i)
    decreases |s|
  {
    if IsPrefix(k, s) {
      assert OccursAt(k, s, 0);
    } else if s != [] {
      IsSubstringAt(k, s[1..]);
      if IsSubstring(k, s[1..]) {
        var i :| OccursAt(k, s[1..], i);
        assert s[i + 1..i + 1 + |k|] == s[1..][i..i + |k|];
        assert OccursAt(k, s, i + 1);
      }
      assert !OccursAt(k, s, 0);
      forall i | 0 < i && OccursAt(k, s, i) ensures OccursAt(k, s[1..], i - 1) {
        assert s[1..][i - 1..i - 1 + |k|] == s[i..i + |k|];
      }
    }
  }

  /** A term containing a character that the text lacks cannot occur in it. */
  lemma MissingCharNoMatch(k: string, s: string, j: nat)
    requires j < |k| && k[j] !in s
    ensures !IsSubstring(k, s)
  {
    IsSubstringAt(k, s);
    forall i | 0 <= i <= |s| - |k| ensures !OccursAt(k, s, i) {
      assert s[i..i + |k|][j] == s[i + j];
      assert s[i + j] in s;
    }
  }

  /** '%' matches every text. */
  lemma {:induction false} LikeAnything(s: string)
    ensures Like("%", s)
    decreases |s|
  {
    assert "%"[1..] == [];
    if s != [] {
      LikeAnything(s[1..]);
    }
  }

  /** A wildcard-free pattern prefix must match a literal prefix of the text. */
  lemma {:induction false} LikeLiteral(k: string, rest: string, s: string)
    requires NoWildcards(k)
    ensures Like(k + rest, s) <==> IsPrefix(k, s) && Like(rest, s[|k|..])
    decreases |k|
  {
    if k == [] {
      assert k + rest == rest;
      assert s[..0] == k && s[0..] == s;
    } else {
      var p := k + rest;
      assert p[0] == k[0] && p[1..] == k[1..] + rest;
      assert NoWildcards(k[1..]) by {
        forall i | 0 <= i < |k[1..]| ensures k[1..][i] != '%' && k[1..][i] != '_' {
          assert k[1..][i] == k[i + 1];
        }
      }
      assert k[0] != '%' && k[0] != '_';
      if s != [] {
        LikeLiteral(k[1..], rest, s[1..]);
        if |k| <= |s| {
          assert s[1..][|k| - 1..] == s[|k|..];
        }
        if IsPrefix(k, s) {
          assert s[1..][..|k| - 1] == s[..|k|][1..];
        }
        if k[0] == s[0] && IsPrefix(k[1..], s[1..]) {
          assert s[..|k|] == [s[0]] + s[1..][..|k| - 1];
        }
      }
    }
  }

  /** The core of every search: the pattern '%k%' with a wildcard-free k
      matches exactly the texts that contain k. */
  lemma {:induction false} LikeInfix(k: string, s: string)
    requires NoWildcards(k)
    ensures Like("%" + k + "%", s) <==> IsSubstring(k, s)
    decreases |s|
  {
    var p := "%" + k + "%";
    assert p[0] == '%' && p[1..] == k + "%";
    LikeLiteral(k, "%", s);
    if IsPrefix(k, s) {
      LikeAnything(s[|k|..]);
    }
    if s != [] {
      LikeInfix(k, s[1..]);
    }
  }

  lemma LowerKeepsNoWildcards(s: string)
    requires NoWildcards(s)
    ensures NoWildcards(Lower(s))
  {
  }

  /** Without wildcards in the term, `Contains` is case-insensitive substring search. */
  lemma ContainsIsSubstring(s: string, term: string)
    requires NoWildcards(term)
    ensures Contains(s, term) <==> IsSubstring(Lower(term), Lower(s))
  {
    LowerConcat("%" + term, "%");
    LowerConcat("%", term);
    assert Lower("%") == "%";
    LowerKeepsNoWildcards(term);
    LikeInfix(Lower(term), Lower(s));
  }

  /** An empty term filters nothing out: '%%' matches every value. */
  lemma EmptyTermMatches(s: string)
    ensures Contains(s, "")
  {
    assert Lower("%" + "" + "%") == "%%";
    assert "%%"[1..] == "%";
    LikeAnything(Lower(s));
  }

  /** Terms are not escaped: '_' inside a term matches any one character. */
  lemma UnderscoreInTermIsWildcard()
    ensures Contains("John", "J_hn")
  {
    assert Lower("%" + "J_hn" + "%") == "%j_hn%";
    assert Lower("John") == "john";
    LikeAnything([]);
    assert Like("n%", "n");
    assert Like("hn%", "hn");
    assert Like("_hn%", "ohn");
    assert Like("j_hn%", "john");
    assert Like("%j_hn%", "john");
  }

  // Decimal rendering of integers (Python's str(int)).

  predicate IsDigit(ch: char) {
    '0' <= ch <= '9'
  }

  predicate AllDigits(s: string) {
    forall i :: 0 <= i < |s| ==> IsDigit(s[i])
  }

  function DigitChar(d: nat): (ch: char)
    requires d < 10
    ensures IsDigit(ch) && ch as int - '0' as int == d
  {
    ('0' as int + d) as char
  }

  function NatToString(n: nat): (r: string)
    ensures |r| >= 1 && AllDigits(r)
    decreases n
  {
    if n < 10 then [DigitChar(n)] else NatToString(n / 10) + [DigitChar(n % 10)]
  }

  function IntToString(n: int): (r: string)
    ensures r != [] && ',' !in r
  {
    if n < 0 then "-" + NatToString(-n) else NatToString(n)
  }

  function DigitsValue(s: string): nat
    requires AllDigits(s)
  {
    if s == [] then 0 else DigitsValue(s[..|s| - 1]) * 10 + (s[|s| - 1] as int - '0' as int)
  }

  function ParseInt(s: string): Option<int> {
    if s == [] then None
    else if s[0] == '-' then (if |s| > 1 && AllDigits(s[1..]) then Some(0 - DigitsValue(s[1..])) else None)
    else if AllDigits(s) then Some(DigitsValue(s))
    else None
  }

  lemma {:induction false} NatRoundTrip(n: nat)
    ensures DigitsValue(NatToString(n)) == n
    decreases n
  {
    if n >= 10 {
      NatRoundTrip(n / 10);
      var s := NatToString(n);
      assert s[..|s| - 1] == NatToString(n / 10);
    }
  }

  /** Parsing the decimal rendering of an integer gives the integer back. */
  lemma IntRoundTrip(n: int)
    ensures ParseInt(IntToString(n)) == Some(n)
  {
    if n < 0 {
      var digits := NatToString(-n);
      NatRoundTrip(-n);
      var s := "-" + digits;
      assert s[0] == '-' && s[1..] == digits;
      assert ParseInt(s) == Some(0 - DigitsValue(digits));
    } else {
      var digits := NatToString(n);
      NatRoundTrip(n);
      assert digits[0] != '-';
    }
  }

  /** Splits `s` before the first occurrence of `stop` (or at its end). */
  function Span(s: string, stop: char): (r: (string, string))
    ensures r.0 + r.1 == s && stop !in r.0 && (r.1 == [] || r.1[0] == stop)
  {
    if s == [] then ([], [])
    else if s[0] == stop then ([], s)
    else var (a, b) := Span(s[1..], stop); ([s[0]] + a, b)
  }

  lemma {:induction false} SpanOf(a: string, b: string, stop: char)
    requires stop !in a && (b == [] || b[0] == stop)
    ensures Span(a + b, stop) == (a, b)
    decreases |a|
  {
    if a == [] {
      assert a + b == b;
    } else {
      assert (a + b)[0] == a[0] && (a + b)[1..] == a[1..] + b;
      SpanOf(a[1..], b, stop);
      assert [a[0]] + a[1..] == a;
    }
  }
}
