/** The JavaScript string operations the variant-URL handlers are built from:
    `split('-')`, `join('-')`, `replace(/\s+/g, '-')` and `toLowerCase()`. */
module JsStrings {
  import opened Sequences

  /** `t` is a suffix of `s` (`s.endsWith(t)`). */
  predicate EndsWith(s: string, t: string)
  {
    |t| <= |s| && s[|s| - |t|..] == t
  }

  // ---------------------------------------------------------------------------
  // split('-') and join('-')
  // ---------------------------------------------------------------------------

  /** `s.split('-')`: the pieces between hyphens, empty pieces included; the
      empty string splits into one empty piece. */
  function Split(s: string): (parts: seq<string>)
    ensures |parts| >= 1
  {
    if s == [] then [[]]
    else
      var rest := Split(s[1..]);
      if s[0] == '-' then [[]] + rest
      else [[s[0]] + rest[0]] + rest[1..]
  }

  /** `parts.join('-')`. */
  function Join(parts: seq<string>): (r: string)
    ensures |r| + 1 >= |parts|
  {
    if |parts| == 0 then ""
    else if |parts| == 1 then parts[0]
    else parts[0] + "-" + Join(parts[1..])
  }

  /** A join starts with the first piece and, for two or more pieces, ends with a
      hyphen and the last piece. */
  lemma {:induction false} JoinEnds(parts: seq<string>)
    requires |parts| > 0
    ensures |parts[0]| <= |Join(parts)| && Join(parts)[..|parts[0]|] == parts[0]
    ensures |parts| > 1 ==> EndsWith(Join(parts), "-" + parts[|parts| - 1])
  {
    if |parts| > 1 {
      var j := Join(parts[1..]);
      assert (parts[0] + "-" + j)[..|parts[0]|] == parts[0];
      if |parts| == 2 {
        assert j == parts[1];
        assert (parts[0] + "-" + j)[|parts[0]|..] == "-" + parts[1];
      } else {
        JoinEnds(parts[1..]);
        var t := "-" + parts[|parts| - 1];
        assert j[|j| - |t|..] == t;
        assert (parts[0] + "-" + j)[|parts[0] + "-" + j| - |t|..] == j[|j| - |t|..];
      }
    }
  }

  /** No piece of a split contains a hyphen. */
  lemma {:induction false} SplitPiecesHaveNoHyphen(s: string)
    ensures forall i :: 0 <= i < |Split(s)| ==> '-' !in Split(s)[i]
  {
    if s != [] {
      SplitPiecesHaveNoHyphen(s[1..]);
      var rest := Split(s[1..]);
      if s[0] != '-' {
        assert Split(s) == [[s[0]] + rest[0]] + rest[1..];
        assert '-' !in [s[0]] + rest[0];
      }
    }
  }

  /** Joining the pieces of a split gives the string back. */
  lemma {:induction false} JoinSplit(s: string)
    ensures Join(Split(s)) == s
  {
    if s != [] {
      JoinSplit(s[1..]);
      var rest := Split(s[1..]);
      if s[0] == '-' {
        assert Split(s) == [[]] + rest;
      } else if |rest| == 1 {
        assert Split(s) == [[s[0]] + rest[0]];
      } else {
        assert Split(s) == [[s[0]] + rest[0]] + rest[1..];
        assert Join(rest) == rest[0] + "-" + Join(rest[1..]);
        assert Split(s)[1..] == rest[1..];
      }
    }
  }

  /** A hyphen-free string splits into itself alone. */
  lemma {:induction false} SplitNoHyphen(s: string)
    requires '-' !in s
    ensures Split(s) == [s]
  {
    if s != [] {
      assert '-' !in s[1..] by {
        forall k | 0 <= k < |s[1..]| ensures s[1..][k] != '-' {
          assert s[1..][k] == s[k + 1];
        }
      }
      SplitNoHyphen(s[1..]);
      assert [s[0]] + s[1..] == s;
    }
  }

  /** Splitting at a hyphen splits the two sides independently. */
  lemma SplitAtHyphen(a: string, b: string)
    ensures Split(a + "-" + b) == Split(a) + Split(b)
  {
    ConcatAssoc(a, "-", b);
    SplitBeforeHyphen(a, "-" + b);
    assert ("-" + b)[1..] == b;
  }

  /** `SplitAtHyphen` with the hyphen and what follows it as one string `y`. */
  lemma {:induction false} SplitBeforeHyphen(a: string, y: string)
    requires y != [] && y[0] == '-'
    ensures Split(a + y) == Split(a) + Split(y[1..])
  {
    if a == [] {
      assert a + y == y;
    } else {
      var s := a + y;
      assert s[0] == a[0];
      assert s[1..] == a[1..] + y;
      SplitBeforeHyphen(a[1..], y);
      var ra, rb := Split(a[1..]), Split(y[1..]);
      var rest := Split(s[1..]);
      assert rest == ra + rb;
      if a[0] == '-' {
        calc {
          Split(s);
          [[]] + rest;
          [[]] + (ra + rb);
        == { ConcatAssoc([[]], ra, rb); }
          ([[]] + ra) + rb;
          Split(a) + rb;
        }
      } else {
        assert rest[0] == ra[0];
        assert rest[1..] == ra[1..] + rb;
        calc {
          Split(s);
          [[a[0]] + rest[0]] + rest[1..];
          [[a[0]] + ra[0]] + (ra[1..] + rb);
        == { ConcatAssoc([[a[0]] + ra[0]], ra[1..], rb); }
          ([[a[0]] + ra[0]] + ra[1..]) + rb;
          Split(a) + rb;
        }
      }
    }
  }

  /** Splitting a join of hyphen-free pieces gives the pieces back. */
  lemma {:induction false} SplitJoin(parts: seq<string>)
    requires |parts| >= 1
    requires forall i :: 0 <= i < |parts| ==> '-' !in parts[i]
    ensures Split(Join(parts)) == parts
  {
    if |parts| == 1 {
      SplitNoHyphen(parts[0]);
    } else {
      SplitJoin(parts[1..]);
      SplitNoHyphen(parts[0]);
      SplitAtHyphen(parts[0], Join(parts[1..]));
      assert [parts[0]] + parts[1..] == parts;
    }
  }

  /** Joining a concatenation puts one hyphen between the two joins. */
  lemma {:induction false} JoinConcat(a: seq<string>, b: seq<string>)
    requires |a| >= 1 && |b| >= 1
    ensures Join(a + b) == Join(a) + "-" + Join(b)
  {
    var ab := a + b;
    assert ab[0] == a[0];
    if |a| == 1 {
      assert ab[1..] == b;
    } else {
      assert ab[1..] == a[1..] + b;
      var p, q, jb := a[0] + "-", Join(a[1..]), Join(b);
      calc {
        Join(ab);
        p + Join(a[1..] + b);
      == { JoinConcat(a[1..], b); }
        p + ((q + "-") + jb);
      == { ConcatAssoc(p, q + "-", jb); }
        (p + (q + "-")) + jb;
      == { ConcatAssoc(p, q, "-"); }
        ((p + q) + "-") + jb;
        Join(a) + "-" + jb;
      }
    }
  }

  /** A join ending in `x` is `x` itself or ends with a hyphen and `x`. */
  lemma JoinSnocEndsWith(a: seq<string>, x: string)
    ensures Join(a + [x]) == x || EndsWith(Join(a + [x]), "-" + x)
  {
    JoinSnoc(a, x);
    if |a| > 0 {
      var j := Join(a);
      assert (j + "-" + x)[|j|..] == "-" + x;
    }
  }

  /** Appending one element to a join. */
  lemma JoinSnoc(a: seq<string>, x: string)
    ensures Join(a + [x]) == if |a| == 0 then x else Join(a) + "-" + x
  {
    if |a| >= 1 {
      JoinConcat(a, [x]);
    } else {
      assert a + [x] == [x];
    }
  }

  // ---------------------------------------------------------------------------
  // replace(/\s+/g, '-')
  // ---------------------------------------------------------------------------

  /** The characters of the regular-expression class `\s`: ECMAScript white space
      and line terminators. */
  predicate IsWhitespace(c: char)
  {
    var n := c as int;
    n == 0x09 || n == 0x0A || n == 0x0B || n == 0x0C || n == 0x0D || n == 0x20
    || n == 0xA0 || n == 0x1680 || (0x2000 <= n <= 0x200A)
    || n == 0x2028 || n == 0x2029 || n == 0x202F || n == 0x205F
    || n == 0x3000 || n == 0xFEFF
  }

  /** No character of `s` is white space. */
  predicate NoWhitespace(s: string)
  {
    forall i :: 0 <= i < |s| ==> !IsWhitespace(s[i])
  }

  /** Every character of `s` is white space. */
  predicate AllWhitespace(s: string)
  {
    forall i :: 0 <= i < |s| ==> IsWhitespace(s[i])
  }

  /** `s` without its leading run of white space. */
  function TrimLeadingWhitespace(s: string): (r: string)
    ensures EndsWith(s, r)
    ensures r == [] || !IsWhitespace(r[0])
    ensures AllWhitespace(s[..|s| - |r|])
  {
    if s != [] && IsWhitespace(s[0]) then
      var r := TrimLeadingWhitespace(s[1..]);
      assert s[1..][..|s| - 1 - |r|] == s[1..|s| - |r|];
      r
    else s
  }

  /** `s.replace(/\s+/g, '-')`: every maximal run of white space becomes one hyphen. */
  function ReplaceWhitespaceRuns(s: string): (r: string)
    ensures NoWhitespace(r)
    ensures |r| <= |s|
    decreases |s|
  {
    if s == [] then []
    else if IsWhitespace(s[0]) then "-" + ReplaceWhitespaceRuns(TrimLeadingWhitespace(s[1..]))
    else [s[0]] + ReplaceWhitespaceRuns(s[1..])
  }

  /** A string without white space is left as it is. */
  lemma {:induction false} ReplaceWithoutWhitespace(s: string)
    requires NoWhitespace(s)
    ensures ReplaceWhitespaceRuns(s) == s
  {
    if s != [] {
      assert NoWhitespace(s[1..]) by {
        forall k | 0 <= k < |s[1..]| ensures !IsWhitespace(s[1..][k]) {
          assert s[1..][k] == s[k + 1];
        }
      }
      ReplaceWithoutWhitespace(s[1..]);
      assert [s[0]] + s[1..] == s;
    }
  }

  /** Trimming a string that ends in a non-space stops inside it. */
  lemma {:induction false} TrimConcat(a: string, x: string)
    requires a != [] && !IsWhitespace(a[|a| - 1])
    ensures TrimLeadingWhitespace(a + x) == TrimLeadingWhitespace(a) + x
    ensures TrimLeadingWhitespace(a) != []
    ensures TrimLeadingWhitespace(a)[|TrimLeadingWhitespace(a)| - 1] == a[|a| - 1]
  {
    var ax := a + x;
    assert ax[0] == a[0];
    if IsWhitespace(a[0]) {
      assert |a| > 1;
      assert ax[1..] == a[1..] + x;
      TrimConcat(a[1..], x);
      assert TrimLeadingWhitespace(ax) == TrimLeadingWhitespace(a[1..] + x);
      assert TrimLeadingWhitespace(a) == TrimLeadingWhitespace(a[1..]);
    }
  }

  /** Trimming a white-space run in front of a string that starts with a non-space. */
  lemma {:induction false} TrimRun(w: string, b: string)
    requires AllWhitespace(w)
    requires b == [] || !IsWhitespace(b[0])
    ensures TrimLeadingWhitespace(w + b) == b
  {
    if w == [] {
      assert w + b == b;
    } else {
      assert (w + b)[1..] == w[1..] + b;
      assert AllWhitespace(w[1..]) by {
        forall k | 0 <= k < |w[1..]| ensures IsWhitespace(w[1..][k]) {
          assert w[1..][k] == w[k + 1];
        }
      }
      TrimRun(w[1..], b);
    }
  }

  /** The replacement works piecewise across a boundary that does not split a
      white-space run. */
  lemma {:induction false} ReplaceConcat(a: string, x: string)
    requires a == [] || !IsWhitespace(a[|a| - 1])
    ensures ReplaceWhitespaceRuns(a + x) == ReplaceWhitespaceRuns(a) + ReplaceWhitespaceRuns(x)
    decreases |a|
  {
    if a == [] {
      assert a + x == x;
    } else {
      var ax := a + x;
      assert ax[0] == a[0];
      assert ax[1..] == a[1..] + x;
      if IsWhitespace(a[0]) {
        assert |a| > 1;
        var t := TrimLeadingWhitespace(a[1..]);
        calc {
          ReplaceWhitespaceRuns(ax);
          "-" + ReplaceWhitespaceRuns(TrimLeadingWhitespace(a[1..] + x));
        == { TrimConcat(a[1..], x); }
          "-" + ReplaceWhitespaceRuns(t + x);
        == { ReplaceConcat(t, x); }
          "-" + (ReplaceWhitespaceRuns(t) + ReplaceWhitespaceRuns(x));
        == { ConcatAssoc("-", ReplaceWhitespaceRuns(t), ReplaceWhitespaceRuns(x)); }
          ("-" + ReplaceWhitespaceRuns(t)) + ReplaceWhitespaceRuns(x);
        }
      } else if |a| > 1 {
        calc {
          ReplaceWhitespaceRuns(ax);
          [a[0]] + ReplaceWhitespaceRuns(a[1..] + x);
        == { ReplaceConcat(a[1..], x); }
          [a[0]] + (ReplaceWhitespaceRuns(a[1..]) + ReplaceWhitespaceRuns(x));
        == { ConcatAssoc([a[0]], ReplaceWhitespaceRuns(a[1..]), ReplaceWhitespaceRuns(x)); }
          ([a[0]] + ReplaceWhitespaceRuns(a[1..])) + ReplaceWhitespaceRuns(x);
        }
      } else {
        assert a[1..] + x == x;
        assert ReplaceWhitespaceRuns(a[1..]) == [];
        assert ReplaceWhitespaceRuns(a) == [a[0]];
      }
    }
  }

  /** One maximal run of white space is replaced by exactly one hyphen. */
  lemma RunBecomesHyphen(a: string, w: string, b: string)
    requires a == [] || !IsWhitespace(a[|a| - 1])
    requires w != [] && AllWhitespace(w)
    requires b == [] || !IsWhitespace(b[0])
    ensures ReplaceWhitespaceRuns(a + (w + b)) == ReplaceWhitespaceRuns(a) + ("-" + ReplaceWhitespaceRuns(b))
  {
    ReplaceConcat(a, w + b);
    LeadingRunBecomesHyphen(w, b);
  }

  /** A leading run of white space becomes one hyphen. */
  lemma LeadingRunBecomesHyphen(w: string, b: string)
    requires w != [] && AllWhitespace(w)
    requires b == [] || !IsWhitespace(b[0])
    ensures ReplaceWhitespaceRuns(w + b) == "-" + ReplaceWhitespaceRuns(b)
  {
    var wb := w + b;
    assert wb[0] == w[0];
    assert wb[1..] == w[1..] + b;
    assert AllWhitespace(w[1..]) by {
      forall k | 0 <= k < |w[1..]| ensures IsWhitespace(w[1..][k]) {
        assert w[1..][k] == w[k + 1];
      }
    }
    TrimRun(w[1..], b);
  }

  // ---------------------------------------------------------------------------
  // toLowerCase(), over ASCII
  // ---------------------------------------------------------------------------

  predicate IsAsciiUpper(c: char)
  {
    'A' <= c <= 'Z'
  }

  /** The lower-case form of one character; only ASCII letters change. */
  function LowerChar(c: char): char
  {
    if IsAsciiUpper(c) then (c as int + 32) as char else c
  }

  /** `s.toLowerCase()`. */
  function ToLower(s: string): (r: string)
    ensures |r| == |s|
    ensures forall i :: 0 <= i < |s| ==> r[i] == LowerChar(s[i])
  {
    if s == [] then [] else [LowerChar(s[0])] + ToLower(s[1..])
  }
}
