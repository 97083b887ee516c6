/**
 * Bucket labels: the fixed-width text `strftime` produces for a date-time, and
 * Python's ordering of strings (code point by code point, a proper prefix
 * first). With four-digit years, comparing two labels as strings is comparing
 * the date-times they name.
 */
module Labels {
  import opened Calendar

  /** Python's `<` on `str`. */
  predicate StrLess(a: string, b: string)
    decreases |a|
  {
    if |a| == 0 then |b| > 0
    else if |b| == 0 then false
    else if a[0] != b[0] then a[0] < b[0]
    else StrLess(a[1..], b[1..])
  }

  lemma {:induction false} StrLessIrreflexive(a: string)
    ensures !StrLess(a, a)
    decreases |a|
  {
    if |a| > 0 {
      StrLessIrreflexive(a[1..]);
    }
  }

  lemma {:induction false} StrLessTransitive(a: string, b: string, c: string)
    requires StrLess(a, b) && StrLess(b, c)
    ensures StrLess(a, c)
    decreases |a|
  {
    if |a| > 0 && a[0] == b[0] && b[0] == c[0] {
      StrLessTransitive(a[1..], b[1..], c[1..]);
    }
  }

  lemma {:induction false} StrLessTotal(a: string, b: string)
    requires a != b
    ensures StrLess(a, b) || StrLess(b, a)
    decreases |a|
  {
    if |a| > 0 && |b| > 0 && a[0] == b[0] {
      assert a == [a[0]] + a[1..] && b == [b[0]] + b[1..];
      StrLessTotal(a[1..], b[1..]);
    }
  }

  lemma {:induction false} StrLessAsymmetric(a: string, b: string)
    requires StrLess(a, b)
    ensures !StrLess(b, a)
  {
    if StrLess(b, a) {
      StrLessTransitive(a, b, a);
      StrLessIrreflexive(a);
    }
  }

  /**
   * Comparing two concatenations whose first parts have the same width
   * compares the first parts, and the second parts only when the first are equal.
   */
  lemma {:induction false} ConcatOrder(a1: string, a2: string, b1: string, b2: string)
    requires |a1| == |b1|
    ensures StrLess(a1 + a2, b1 + b2) <==> StrLess(a1, b1) || (a1 == b1 && StrLess(a2, b2))
    ensures a1 + a2 == b1 + b2 <==> a1 == b1 && a2 == b2
    decreases |a1|
  {
    if a1 + a2 == b1 + b2 {
      assert a1 == (a1 + a2)[..|a1|] && b1 == (b1 + b2)[..|b1|];
      assert a2 == (a1 + a2)[|a1|..] && b2 == (b1 + b2)[|b1|..];
    }
    if |a1| == 0 {
      assert a1 + a2 == a2 && b1 + b2 == b2;
      StrLessIrreflexive(a1);
    } else {
      assert (a1 + a2)[0] == a1[0] && (b1 + b2)[0] == b1[0];
      assert (a1 + a2)[1..] == a1[1..] + a2 && (b1 + b2)[1..] == b1[1..] + b2;
      if a1[0] == b1[0] {
        assert a1 == [a1[0]] + a1[1..] && b1 == [b1[0]] + b1[1..];
        ConcatOrder(a1[1..], a2, b1[1..], b2);
      }
    }
  }

  // ---------------------------------------------------------------------------
  // Zero-padded decimal fields

  function Pow10(n: nat): (p: nat)
    ensures p >= 1
  {
    if n == 0 then 1 else 10 * Pow10(n - 1)
  }

  function Digit(n: int): (c: char)
    requires 0 <= n < 10
    ensures '0' <= c <= '9'
  {
    ('0' as int + n) as char
  }

  lemma DigitOrder(x: int, y: int)
    requires 0 <= x < 10 && 0 <= y < 10
    ensures StrLess([Digit(x)], [Digit(y)]) <==> x < y
    ensures Digit(x) == Digit(y) <==> x == y
  {
    assert Digit(x) as int == '0' as int + x && Digit(y) as int == '0' as int + y;
    assert [Digit(x)][1..] == [] && [Digit(y)][1..] == [];
    StrLessIrreflexive([]);
  }

  /** The last `width` decimal digits of `n`, zero-padded: `%0<width>d` for `n < 10^width`. */
  function ZeroPad(n: nat, width: nat): (s: string)
    ensures |s| == width
  {
    if width == 0 then [] else ZeroPad(n / 10, width - 1) + [Digit(n % 10)]
  }

  /** Zero-padded numbers of one width compare as strings as they do as numbers. */
  lemma {:induction false} ZeroPadOrder(x: nat, y: nat, width: nat)
    requires x < Pow10(width) && y < Pow10(width)
    ensures StrLess(ZeroPad(x, width), ZeroPad(y, width)) <==> x < y
    ensures ZeroPad(x, width) == ZeroPad(y, width) <==> x == y
  {
    if width == 0 {
      StrLessIrreflexive([]);
    } else {
      ZeroPadOrder(x / 10, y / 10, width - 1);
      DigitOrder(x % 10, y % 10);
      ConcatOrder(ZeroPad(x / 10, width - 1), [Digit(x % 10)], ZeroPad(y / 10, width - 1), [Digit(y % 10)]);
      assert x == 10 * (x / 10) + x % 10 && y == 10 * (y / 10) + y % 10;
    }
  }

  // ---------------------------------------------------------------------------
  // Rendering a date-time field by field

  /** One directive of a format: a fixed separator, then a number zero-padded to `width` digits. */
  datatype Field = Field(sep: string, value: nat, width: nat)

  function Render(fields: seq<Field>): string {
    if fields == [] then "" else fields[0].sep + ZeroPad(fields[0].value, fields[0].width) + Render(fields[1..])
  }

  lemma RenderCons(f: Field, fs: seq<Field>)
    ensures Render([f] + fs) == f.sep + ZeroPad(f.value, f.width) + Render(fs)
  {
    assert ([f] + fs)[1..] == fs;
  }

  lemma {:induction false} RenderAppend(fs: seq<Field>, gs: seq<Field>)
    ensures Render(fs + gs) == Render(fs) + Render(gs)
  {
    if fs == [] {
      assert fs + gs == gs;
    } else {
      assert (fs + gs)[1..] == fs[1..] + gs;
      RenderAppend(fs[1..], gs);
    }
  }

  /** Two field lists with the same separators and widths, every number fitting its width. */
  predicate SameLayout(fs: seq<Field>, gs: seq<Field>) {
    && |fs| == |gs|
    && forall i :: 0 <= i < |fs| ==>
      && fs[i].sep == gs[i].sep && fs[i].width == gs[i].width
      && fs[i].value < Pow10(fs[i].width) && gs[i].value < Pow10(gs[i].width)
  }

  /** Lexicographic order of the numbers of two field lists. */
  predicate FieldsLess(fs: seq<Field>, gs: seq<Field>)
    decreases |fs|
  {
    if fs == [] || gs == [] then false
    else if fs[0].value != gs[0].value then fs[0].value < gs[0].value
    else FieldsLess(fs[1..], gs[1..])
  }

  /** Rendered field lists of one layout compare as strings as their numbers do lexicographically. */
  lemma {:induction false} RenderOrder(fs: seq<Field>, gs: seq<Field>)
    requires SameLayout(fs, gs)
    ensures StrLess(Render(fs), Render(gs)) <==> FieldsLess(fs, gs)
    ensures Render(fs) == Render(gs) <==> fs == gs
    decreases |fs|
  {
    if fs == [] {
      StrLessIrreflexive([]);
    } else {
      var f, g := fs[0], gs[0];
      ZeroPadOrder(f.value, g.value, f.width);
      StrLessIrreflexive(f.sep);
      ConcatOrder(f.sep, ZeroPad(f.value, f.width), g.sep, ZeroPad(g.value, g.width));
      ConcatOrder(f.sep + ZeroPad(f.value, f.width), Render(fs[1..]), g.sep + ZeroPad(g.value, g.width), Render(gs[1..]));
      assert SameLayout(fs[1..], gs[1..]) by {
        forall i | 0 <= i < |fs[1..]|
          ensures fs[1..][i].sep == gs[1..][i].sep && fs[1..][i].width == gs[1..][i].width
          ensures fs[1..][i].value < Pow10(fs[1..][i].width) && gs[1..][i].value < Pow10(gs[1..][i].width)
        {
          assert fs[1..][i] == fs[i + 1] && gs[1..][i] == gs[i + 1];
        }
      }
      RenderOrder(fs[1..], gs[1..]);
      assert fs == [f] + fs[1..] && gs == [g] + gs[1..];
    }
  }

  lemma FieldsLessAt(fs: seq<Field>, gs: seq<Field>, k: nat)
    requires k < |fs| && k < |gs|
    ensures FieldsLess(fs[k..], gs[k..]) ==
      if fs[k].value != gs[k].value then fs[k].value < gs[k].value else FieldsLess(fs[k + 1..], gs[k + 1..])
  {
    assert fs[k..][1..] == fs[k + 1..] && gs[k..][1..] == gs[k + 1..];
  }

  /** The fields of `d.isoformat()`: `YYYY-MM-DDTHH:MM:SS`. */
  function IsoFields(d: DateTime): seq<Field>
    requires Valid(d)
  {
    [Field("", d.year, 4), Field("-", d.month, 2), Field("-", d.day, 2),
     Field("T", d.hour, 2), Field(":", d.minute, 2), Field(":", d.second, 2)]
  }

  /** `d.isoformat()` */
  function IsoFormat(d: DateTime): string
    requires Valid(d)
  {
    Render(IsoFields(d))
  }

  /** Labels of valid date-times compare as the date-times do, and name one date-time each. */
  lemma IsoFormatOrder(a: DateTime, b: DateTime)
    requires Valid(a) && Valid(b)
    ensures StrLess(IsoFormat(a), IsoFormat(b)) <==> Less(a, b)
    ensures IsoFormat(a) == IsoFormat(b) <==> a == b
  {
    IsoLayout(a, b);
    RenderOrder(IsoFields(a), IsoFields(b));
    IsoFieldsLess(a, b);
  }

  lemma IsoLayout(a: DateTime, b: DateTime)
    requires Valid(a) && Valid(b)
    ensures SameLayout(IsoFields(a), IsoFields(b))
  {
    assert Pow10(2) == 100 && Pow10(4) == 10000;
  }

  /** The fields of `isoformat` run from the most significant to the least, as `Less` compares them. */
  lemma IsoFieldsLess(a: DateTime, b: DateTime)
    requires Valid(a) && Valid(b)
    ensures FieldsLess(IsoFields(a), IsoFields(b)) <==> Less(a, b)
  {
    var fa, fb := IsoFields(a), IsoFields(b);
    FieldsLessAt(fa, fb, 5);
    FieldsLessAt(fa, fb, 4);
    FieldsLessAt(fa, fb, 3);
    FieldsLessAt(fa, fb, 2);
    FieldsLessAt(fa, fb, 1);
    FieldsLessAt(fa, fb, 0);
    assert fa[6..] == [] && fa[0..] == fa && fb[0..] == fb;
  }

  predicate StrictlyAscending(s: seq<string>) {
    forall i, j :: 0 <= i < j < |s| ==> StrLess(s[i], s[j])
  }

  /** A label below the first of an ascending sequence keeps it ascending in front. */
  lemma AscendingCons(k: string, rest: seq<string>)
    requires StrictlyAscending(rest) && (rest != [] ==> StrLess(k, rest[0]))
    ensures StrictlyAscending([k] + rest)
  {
    var s := [k] + rest;
    forall i, j | 0 <= i < j < |s|
      ensures StrLess(s[i], s[j])
    {
      if i == 0 && j > 1 {
        StrLessTransitive(k, rest[0], rest[j - 1]);
      }
    }
  }

  lemma SameElementsBothEmpty(s: seq<string>, t: seq<string>)
    requires forall x :: x in s <==> x in t
    ensures s == [] <==> t == []
  {
    if s != [] {
      assert s[0] in t;
    }
    if t != [] {
      assert t[0] in s;
    }
  }

  /**
   * Two strictly ascending sequences holding the same strings are the same
   * sequence: the ordering of labels is determined by their set.
   */
  lemma {:induction false} AscendingIsUnique(s: seq<string>, t: seq<string>)
    requires StrictlyAscending(s) && StrictlyAscending(t)
    requires forall x :: x in s <==> x in t
    ensures s == t
    decreases |s|
  {
    SameElementsBothEmpty(s, t);
    if s != [] {
      if s[0] != t[0] {
        assert t[0] in s;
        var i :| 0 <= i < |s| && s[i] == t[0];
        assert s[0] in t;
        var j :| 0 <= j < |t| && t[j] == s[0];
        StrLessAsymmetric(s[0], s[i]);
      }
      forall x
        ensures x in s[1..] <==> x in t[1..]
      {
        if x in s[1..] {
          var i :| 1 <= i < |s| && s[i] == x;
          StrLessAsymmetric(s[0], s[i]);
          assert x != t[0] && x in t;
          var j :| 0 <= j < |t| && t[j] == x;
          assert t[1..][j - 1] == x;
        }
        if x in t[1..] {
          var j :| 1 <= j < |t| && t[j] == x;
          StrLessAsymmetric(t[0], t[j]);
          assert x != s[0] && x in s;
          var i :| 0 <= i < |s| && s[i] == x;
          assert s[1..][i - 1] == x;
        }
      }
      AscendingIsUnique(s[1..], t[1..]);
      assert s == [s[0]] + s[1..] && t == [t[0]] + t[1..];
    }
  }
}
