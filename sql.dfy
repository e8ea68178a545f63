/**
 * The parts of SQLite's query semantics that both note tables rely on:
 * LIMIT, the BINARY text collation used by ORDER BY, and LIKE.
 */
module Sql {
  import opened Text

  datatype Option<T> = None | Some(value: T)

  /**
   * The engine errors a caller can meet here: a statement on a table that was never
   * created, and a LIKE whose pattern is longer than the engine accepts.
   */
  datatype SqlError = NoSuchTable | PatternTooComplex

  datatype Result<T> = Ok(value: T) | Err(error: SqlError)

  /**
   * `LIMIT limit` applied to an ordered result: at most `limit` rows from the front;
   * SQLite reads a negative limit as "no limit".
   */
  function Limit<T>(rows: seq<T>, limit: int): (r: seq<T>)
    ensures r <= rows
    ensures |r| == if 0 <= limit < |rows| then limit else |rows|
  {
    if 0 <= limit < |rows| then rows[..limit] else rows
  }

  /**
   * SQLite's BINARY collation on text: characters compared by code point (which is
   * the byte order of their UTF-8 encoding), and a proper prefix first.
   */
  predicate TextLe(a: string, b: string)
    decreases |a|
  {
    a == [] || (b != [] && (a[0] < b[0] || (a[0] == b[0] && TextLe(a[1..], b[1..]))))
  }

  lemma {:induction false} TextLeTotal(a: string, b: string)
    ensures TextLe(a, b) || TextLe(b, a)
    decreases |a|
  {
    if a != [] && b != [] && a[0] == b[0] {
      TextLeTotal(a[1..], b[1..]);
    }
  }

  lemma {:induction false} TextLeTransitive(a: string, b: string, c: string)
    requires TextLe(a, b) && TextLe(b, c)
    ensures TextLe(a, c)
    decreases |a|
  {
    if a != [] && a[0] == b[0] && b[0] == c[0] {
      TextLeTransitive(a[1..], b[1..], c[1..]);
    }
  }

  lemma {:induction false} TextLeAntisymmetric(a: string, b: string)
    requires TextLe(a, b) && TextLe(b, a)
    ensures a == b
    decreases |a|
  {
    if a != [] {
      TextLeAntisymmetric(a[1..], b[1..]);
      assert a == [a[0]] + a[1..] && b == [b[0]] + b[1..];
    }
  }

  /**
   * SQLite's `s LIKE p` without an ESCAPE clause: `%` matches any run of characters,
   * `_` exactly one character, and any other character matches itself ignoring the
   * case of ASCII letters.
   */
  predicate Like(s: string, p: string)
    decreases |s| + |p|
  {
    if p == [] then s == []
    else if p[0] == '%' then Like(s, p[1..]) || (s != [] && Like(s[1..], p))
    else if s == [] then false
    else if p[0] == '_' then Like(s[1..], p[1..])
    else LowerChar(s[0]) == LowerChar(p[0]) && Like(s[1..], p[1..])
  }

  /** A LIKE operand in which no character acts as a wildcard. */
  predicate NoWildcards(k: string) {
    '%' !in k && '_' !in k
  }

  /** `t` begins with `k` when ASCII case is ignored. */
  predicate StartsWithIgnoringCase(t: string, k: string) {
    |k| <= |t| && forall i :: 0 <= i < |k| ==> LowerChar(t[i]) == LowerChar(k[i])
  }

  lemma {:induction false} LikePercentMatchesAll(s: string)
    ensures Like(s, "%")
    decreases |s|
  {
    if s != [] {
      LikePercentMatchesAll(s[1..]);
    }
  }

  /** With a wildcard-free `k`, `t LIKE k%` tests that `t` starts with `k` ignoring ASCII case. */
  lemma {:induction false} LikePrefix(t: string, k: string)
    requires NoWildcards(k)
    ensures Like(t, k + "%") <==> StartsWithIgnoringCase(t, k)
    decreases |k|
  {
    if k == [] {
      assert k + "%" == "%";
      LikePercentMatchesAll(t);
    } else {
      var p := k + "%";
      assert p[0] == k[0] && p[1..] == k[1..] + "%";
      assert k[0] in k;
      assert NoWildcards(k[1..]) by {
        forall c | c in k[1..] ensures c in k { }
      }
      if t != [] {
        LikePrefix(t[1..], k[1..]);
        if StartsWithIgnoringCase(t, k) {
          assert StartsWithIgnoringCase(t[1..], k[1..]) by {
            forall i | 0 <= i < |k| - 1 ensures LowerChar(t[1..][i]) == LowerChar(k[1..][i]) {
              assert t[1..][i] == t[i + 1] && k[1..][i] == k[i + 1];
            }
          }
        }
        if Like(t, p) {
          assert StartsWithIgnoringCase(t, k) by {
            forall i | 0 <= i < |k| ensures LowerChar(t[i]) == LowerChar(k[i]) {
              if i > 0 {
                assert t[1..][i - 1] == t[i] && k[1..][i - 1] == k[i];
              }
            }
          }
        }
      }
    }
  }

  /** `s LIKE %q` holds exactly when `q` matches some suffix of `s`. */
  lemma {:induction false} LikeLeadingPercent(s: string, q: string)
    ensures Like(s, "%" + q) <==> exists i :: 0 <= i <= |s| && Like(s[i..], q)
    decreases |s|
  {
    var p := "%" + q;
    assert p[0] == '%' && p[1..] == q;
    assert s[0..] == s;
    if s != [] {
      LikeLeadingPercent(s[1..], q);
      if Like(s[1..], p) {
        var i :| 0 <= i <= |s[1..]| && Like(s[1..][i..], q);
        assert s[1..][i..] == s[i + 1..];
      }
      if exists i :: 0 <= i <= |s| && Like(s[i..], q) {
        var i :| 0 <= i <= |s| && Like(s[i..], q);
        if i > 0 {
          assert s[i..] == s[1..][i - 1..];
        }
      }
    }
  }

  /** Matching `k` at position `i` ignoring ASCII case is an exact match of the lower-cased strings. */
  lemma StartsAtIffOccursLowered(s: string, k: string, i: int)
    requires 0 <= i <= |s|
    ensures StartsWithIgnoringCase(s[i..], k) <==> OccursAt(Lower(s), Lower(k), i)
  {
    if StartsWithIgnoringCase(s[i..], k) {
      assert Lower(s)[i..i + |k|] == Lower(k) by {
        forall j | 0 <= j < |k| ensures Lower(s)[i..i + |k|][j] == Lower(k)[j] {
          assert s[i..][j] == s[i + j];
        }
      }
    }
    if OccursAt(Lower(s), Lower(k), i) {
      forall j | 0 <= j < |k| ensures LowerChar(s[i..][j]) == LowerChar(k[j]) {
        assert Lower(s)[i..i + |k|][j] == Lower(k)[j];
      }
    }
  }

  /**
   * The pattern `%k%` that a keyword search builds: with a wildcard-free keyword it is
   * an ASCII case-insensitive substring test, with no false positives and no false
   * negatives.
   */
  lemma LikeKeyword(s: string, k: string)
    requires NoWildcards(k)
    ensures Like(s, "%" + k + "%") <==> Contains(Lower(s), Lower(k))
  {
    assert "%" + k + "%" == "%" + (k + "%");
    LikeLeadingPercent(s, k + "%");
    if Like(s, "%" + k + "%") {
      var i :| 0 <= i <= |s| && Like(s[i..], k + "%");
      LikePrefix(s[i..], k);
      StartsAtIffOccursLowered(s, k, i);
    }
    if Contains(Lower(s), Lower(k)) {
      var i :| 0 <= i <= |Lower(s)| - |Lower(k)| && OccursAt(Lower(s), Lower(k), i);
      LikePrefix(s[i..], k);
      StartsAtIffOccursLowered(s, k, i);
    }
  }

  /** SQLITE_MAX_LIKE_PATTERN_LENGTH: the longest LIKE pattern, in UTF-8 bytes, by default. */
  const MaxLikePatternLength: nat := 50000

  /** Bytes in the UTF-8 encoding of one character. */
  function Utf8Width(c: char): nat {
    if c as int < 0x80 then 1
    else if c as int < 0x800 then 2
    else if c as int < 0x1_0000 then 3
    else 4
  }

  /** Bytes in the UTF-8 encoding of a string: between one and four per character. */
  function Utf8Length(s: string): (n: nat)
    ensures |s| <= n <= 4 * |s|
  {
    if s == [] then 0 else Utf8Width(s[0]) + Utf8Length(s[1..])
  }

  lemma {:induction false} Utf8LengthAppend(a: string, b: string)
    ensures Utf8Length(a + b) == Utf8Length(a) + Utf8Length(b)
    decreases |a|
  {
    if a == [] {
      assert a + b == b;
    } else {
      assert (a + b)[0] == a[0] && (a + b)[1..] == a[1..] + b;
      Utf8LengthAppend(a[1..], b);
    }
  }

  /**
   * The LIKE function refuses a pattern of more than `MaxLikePatternLength` bytes with
   * "LIKE or GLOB pattern too complex", each time it is evaluated on a row.
   */
  predicate LikePatternTooComplex(p: string) {
    Utf8Length(p) > MaxLikePatternLength
  }
}
