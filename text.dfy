/**
 * The Ruby `String` operations the agent relies on, over `seq<char>`:
 * `include?`, `index`, `sub` with a literal pattern, `split` on one
 * character, `upcase` (ASCII letters) and `to_i`.
 */
module Text {
  import opened Wrappers

  predicate StartsWith(s: string, prefix: string) {
    |prefix| <= |s| && s[..|prefix|] == prefix
  }

  /** `pat` occurs in `s` starting at position `i`. */
  predicate OccursAt(s: string, pat: string, i: int) {
    0 <= i && i + |pat| <= |s| && s[i..i + |pat|] == pat
  }

  /** An occurrence past the first character is an occurrence in the tail. */
  lemma OccursShift(s: string, pat: string)
    requires |s| > 0
    ensures forall j :: 1 <= j ==> (OccursAt(s, pat, j) <==> OccursAt(s[1..], pat, j - 1))
  {
    forall j | 1 <= j ensures OccursAt(s, pat, j) <==> OccursAt(s[1..], pat, j - 1) {
      if j + |pat| <= |s| {
        assert s[1..][j - 1..j - 1 + |pat|] == s[j..j + |pat|];
      }
    }
  }

  /** Ruby `s.index(pat)`: the position of the first occurrence, if any. */
  function IndexOf(s: string, pat: string): (r: Option<nat>)
    ensures r.Some? ==> OccursAt(s, pat, r.value)
    ensures r.Some? ==> forall j :: 0 <= j < r.value ==> !OccursAt(s, pat, j)
    ensures r.None? ==> forall j :: !OccursAt(s, pat, j)
    decreases |s|
  {
    if StartsWith(s, pat) then
      assert OccursAt(s, pat, 0) by { assert s[0..|pat|] == s[..|pat|]; }
      Some(0)
    else if s == [] then
      None
    else
      var rest := IndexOf(s[1..], pat);
      assert !OccursAt(s, pat, 0) by {
        if |pat| <= |s| { assert s[0..|pat|] == s[..|pat|]; }
      }
      OccursShift(s, pat);
      match rest
      case None => None
      case Some(k) => Some(k + 1)
  }

  /** Ruby `s.include?(pat)`: `pat` occurs somewhere in `s`. */
  predicate Contains(s: string, pat: string)
    ensures Contains(s, pat) <==> exists i :: OccursAt(s, pat, i)
  {
    IndexOf(s, pat).Some?
  }

  /**
   * Ruby `s.sub(pat, rep)` with a literal string pattern: the first
   * occurrence of `pat` is replaced by `rep`; without one, `s` is returned.
   */
  function Sub(s: string, pat: string, rep: string): (r: string)
    ensures !Contains(s, pat) ==> r == s
    ensures Contains(s, pat) ==> |r| == |s| - |pat| + |rep|
    ensures Contains(s, pat) ==>
      var i := IndexOf(s, pat).value;
      r[..i] == s[..i] && r[i..i + |rep|] == rep && r[i + |rep|..] == s[i + |pat|..]
  {
    match IndexOf(s, pat)
    case None => s
    case Some(i) => s[..i] + rep + s[i + |pat|..]
  }

  /** A pattern found at the very start is the one `sub` removes. */
  lemma SubLeading(s: string, pat: string)
    requires StartsWith(s, pat)
    ensures Sub(s, pat, "") == s[|pat|..]
  {
    assert OccursAt(s, pat, 0) by { assert s[0..|pat|] == s[..|pat|]; }
    assert IndexOf(s, pat) == Some(0);
  }

  /* ---------------- split ---------------- */

  /** Joins parts with `sep` between consecutive ones (Ruby `parts.join(sep)`). */
  function Join(parts: seq<string>, sep: char): string {
    if |parts| == 0 then ""
    else if |parts| == 1 then parts[0]
    else parts[0] + [sep] + Join(parts[1..], sep)
  }

  /**
   * Every field between separators, empty ones included: the split before
   * Ruby drops trailing empty fields.
   */
  function Fields(s: string, sep: char): (r: seq<string>)
    ensures |r| >= 1
    ensures Join(r, sep) == s
    ensures forall i :: 0 <= i < |r| ==> sep !in r[i]
    decreases |s|
  {
    if s == [] then [""]
    else
      var rest := Fields(s[1..], sep);
      if s[0] == sep then
        assert s == [sep] + s[1..];
        [""] + rest
      else
        var r := [[s[0]] + rest[0]] + rest[1..];
        assert Join(r, sep) == s by {
          if |rest| == 1 {
            assert s == [s[0]] + s[1..];
          } else {
            assert r[1..] == rest[1..];
            assert Join(rest, sep) == rest[0] + [sep] + Join(rest[1..], sep);
            assert s == [s[0]] + s[1..];
          }
        }
        r
  }

  /** Drops trailing empty strings, as Ruby's `split` does with its result. */
  function DropTrailingEmpty(parts: seq<string>): (r: seq<string>)
    ensures |r| <= |parts| && r == parts[..|r|]
    ensures r == [] || r[|r| - 1] != ""
    ensures forall i :: |r| <= i < |parts| ==> parts[i] == ""
  {
    if |parts| > 0 && parts[|parts| - 1] == "" then DropTrailingEmpty(parts[..|parts| - 1])
    else parts
  }

  /** Appending a part appends a separator and that part. */
  lemma {:induction false} JoinSnoc(parts: seq<string>, x: string, sep: char)
    requires |parts| >= 1
    ensures Join(parts + [x], sep) == Join(parts, sep) + [sep] + x
    decreases |parts|
  {
    if |parts| > 1 {
      assert (parts + [x])[1..] == parts[1..] + [x];
      JoinSnoc(parts[1..], x, sep);
    }
  }

  /** Dropping trailing empty parts drops only trailing separators from the join. */
  lemma {:induction false} JoinDropTrailing(parts: seq<string>, sep: char)
    ensures StartsWith(Join(parts, sep), Join(DropTrailingEmpty(parts), sep))
    ensures forall k :: |Join(DropTrailingEmpty(parts), sep)| <= k < |Join(parts, sep)| ==>
              Join(parts, sep)[k] == sep
    decreases |parts|
  {
    if |parts| > 0 && parts[|parts| - 1] == "" {
      var init := parts[..|parts| - 1];
      JoinDropTrailing(init, sep);
      if |init| >= 1 {
        assert parts == init + [""];
        JoinSnoc(init, "", sep);
      }
    }
  }

  /**
   * Ruby `s.split(sep)` for a one-character separator: the separator-free
   * parts, the last one non-empty, whose join is `s` up to its trailing
   * separators.
   */
  function Split(s: string, sep: char): (r: seq<string>)
    ensures forall i :: 0 <= i < |r| ==> sep !in r[i]
    ensures r == [] || r[|r| - 1] != ""
    ensures StartsWith(s, Join(r, sep))
    ensures forall k :: |Join(r, sep)| <= k < |s| ==> s[k] == sep
  {
    JoinDropTrailing(Fields(s, sep), sep);
    DropTrailingEmpty(Fields(s, sep))
  }

  /** The text of `s` before its first `sep` (all of `s` when there is none). */
  function FieldBefore(s: string, sep: char): (r: string)
    ensures StartsWith(s, r) && sep !in r
    ensures |r| == |s| || s[|r|] == sep
  {
    if s == [] || s[0] == sep then "" else [s[0]] + FieldBefore(s[1..], sep)
  }

  /** A separator-free prefix that ends at a separator or at the end is `FieldBefore`. */
  lemma FieldBeforeUnique(s: string, p: string, sep: char)
    requires StartsWith(s, p) && sep !in p
    requires |p| == |s| || s[|p|] == sep
    ensures FieldBefore(s, sep) == p
  {
    var r := FieldBefore(s, sep);
    if |r| < |p| {
      assert false;
    } else if |p| < |r| {
      assert false;
    }
  }

  /**
   * With at least three parts, `s` starts with the first two parts, each
   * followed by the separator, and the third part is the field after them.
   */
  lemma SplitHead(s: string, sep: char)
    requires |Split(s, sep)| >= 3
    ensures var p := Split(s, sep);
            var head := p[0] + [sep] + p[1] + [sep];
            StartsWith(s, head) && FieldBefore(s[|head|..], sep) == p[2]
  {
    var fs := Fields(s, sep);
    var p := Split(s, sep);
    assert p == fs[..|p|];
    assert fs[0] == p[0] && fs[1] == p[1] && fs[2] == p[2];
    var head := p[0] + [sep] + p[1] + [sep];
    var tail := Join(fs[2..], sep);
    assert fs[1..][1..] == fs[2..];
    assert Join(fs[1..], sep) == fs[1] + [sep] + tail;
    assert s == fs[0] + [sep] + Join(fs[1..], sep);
    assert s == head + tail;
    assert s[|head|..] == tail;
    assert StartsWith(tail, fs[2]) && (|fs[2]| == |tail| || tail[|fs[2]|] == sep) by {
      if |fs| > 3 {
        assert fs[2..][1..] == fs[3..];
        assert tail == fs[2] + [sep] + Join(fs[3..], sep);
      }
    }
    FieldBeforeUnique(tail, fs[2], sep);
  }

  lemma {:induction false} FieldsNoSep(s: string, sep: char)
    requires sep !in s
    ensures Fields(s, sep) == [s]
    decreases |s|
  {
    if s != [] {
      FieldsNoSep(s[1..], sep);
      assert [s[0]] + s[1..] == s;
    }
  }

  /** A separator-free head is split off as the first field. */
  lemma {:induction false} FieldsCons(a: string, b: string, sep: char)
    requires sep !in a
    ensures Fields(a + [sep] + b, sep) == [a] + Fields(b, sep)
    decreases |a|
  {
    var s := a + [sep] + b;
    if a == [] {
      assert s[1..] == b;
    } else {
      assert s[1..] == a[1..] + [sep] + b;
      FieldsCons(a[1..], b, sep);
      assert [a[0]] + a[1..] == a;
    }
  }

  /** `"a:b:c".split(":") == ["a", "b", "c"]` for separator-free, non-empty `c`. */
  lemma SplitThree(a: string, b: string, c: string, sep: char)
    requires sep !in a && sep !in b && sep !in c && c != ""
    ensures Split(a + [sep] + b + [sep] + c, sep) == [a, b, c]
  {
    var s := a + [sep] + b + [sep] + c;
    assert s == a + [sep] + (b + [sep] + c);
    FieldsCons(a, b + [sep] + c, sep);
    FieldsCons(b, c, sep);
    FieldsNoSep(c, sep);
    assert Fields(s, sep) == [a, b, c];
  }

  /** With fewer than two separators the split has fewer than three parts. */
  lemma {:induction false} SplitShort(s: string, sep: char)
    requires forall i, j :: 0 <= i < j < |s| ==> !(s[i] == sep && s[j] == sep)
    ensures |Split(s, sep)| < 3
  {
    if sep in s {
      var i :| 0 <= i < |s| && s[i] == sep;
      assert s == s[..i] + [sep] + s[i + 1..];
      assert sep !in s[..i];
      assert forall k :: i < k < |s| ==> s[k] != sep;
      assert sep !in s[i + 1..];
      FieldsCons(s[..i], s[i + 1..], sep);
      FieldsNoSep(s[i + 1..], sep);
    } else {
      FieldsNoSep(s, sep);
    }
  }

  /* ---------------- upcase ---------------- */

  predicate IsLower(c: char) { 'a' <= c <= 'z' }

  /** Ruby `upcase` on the ASCII letters. */
  function Upcase(s: string): (r: string)
    ensures |r| == |s|
    ensures forall i :: 0 <= i < |s| ==>
              r[i] == (if IsLower(s[i]) then (s[i] as int - 32) as char else s[i])
    ensures forall i :: 0 <= i < |s| ==> !IsLower(r[i])
  {
    if s == [] then ""
    else [if IsLower(s[0]) then (s[0] as int - 32) as char else s[0]] + Upcase(s[1..])
  }

  /** `key == key.upcase` holds exactly when `key` has no lower-case letter. */
  lemma {:induction false} UpcaseFixed(s: string)
    ensures Upcase(s) == s <==> forall i :: 0 <= i < |s| ==> !IsLower(s[i])
  {
    if s != [] {
      UpcaseFixed(s[1..]);
      assert forall i :: 1 <= i < |s| ==> s[i] == s[1..][i - 1];
      if Upcase(s) == s {
        assert Upcase(s)[1..] == Upcase(s[1..]);
      }
    }
  }

  /* ---------------- to_i ---------------- */

  predicate IsDigit(c: char) { '0' <= c <= '9' }

  /** The longest prefix of `s` made of decimal digits. */
  function LeadingDigits(s: string): (r: string)
    ensures StartsWith(s, r)
    ensures forall i :: 0 <= i < |r| ==> IsDigit(r[i])
    ensures |r| == |s| || !IsDigit(s[|r|])
  {
    if s != [] && IsDigit(s[0]) then [s[0]] + LeadingDigits(s[1..]) else ""
  }

  /** The value of a string of decimal digits. */
  function DigitsValue(d: string): (r: int)
    requires forall i :: 0 <= i < |d| ==> IsDigit(d[i])
    ensures r >= 0
    ensures d == [] ==> r == 0
  {
    if d == [] then 0
    else
      assert IsDigit(d[|d| - 1]);
      DigitsValue(d[..|d| - 1]) * 10 + (d[|d| - 1] as int - '0' as int)
  }

  /**
   * Ruby `to_i` on a decimal string: an optional sign, then the leading
   * digits; a string with no leading digits gives 0.
   */
  function ToI(s: string): (r: int)
    ensures (s == [] || s[0] != '-') ==> r >= 0
    ensures s != [] && s[0] == '-' ==> r <= 0
    ensures var unsigned := if s != [] && (s[0] == '-' || s[0] == '+') then s[1..] else s;
            (unsigned == [] || !IsDigit(unsigned[0])) ==> r == 0
  {
    if s != [] && s[0] == '-' then -DigitsValue(LeadingDigits(s[1..]))
    else if s != [] && s[0] == '+' then DigitsValue(LeadingDigits(s[1..]))
    else DigitsValue(LeadingDigits(s))
  }

  /** The decimal representation of a natural number, as Ruby's `to_s`. */
  function DecimalString(n: nat): (r: string)
    ensures |r| >= 1
    ensures forall i :: 0 <= i < |r| ==> IsDigit(r[i])
  {
    (if n < 10 then "" else DecimalString(n / 10)) + [('0' as int + n % 10) as char]
  }

  lemma {:induction false} DigitsValueOfDecimal(n: nat)
    ensures DigitsValue(DecimalString(n)) == n
  {
    var r := DecimalString(n);
    var last := ('0' as int + n % 10) as char;
    assert last as int - '0' as int == n % 10;
    assert r[|r| - 1] == last;
    if n >= 10 {
      DigitsValueOfDecimal(n / 10);
      assert r[..|r| - 1] == DecimalString(n / 10);
      assert n == (n / 10) * 10 + n % 10;
    } else {
      assert r[..|r| - 1] == "";
    }
  }

  lemma {:induction false} LeadingDigitsOfDigits(d: string)
    requires forall i :: 0 <= i < |d| ==> IsDigit(d[i])
    ensures LeadingDigits(d) == d
  {
    if d != [] {
      LeadingDigitsOfDigits(d[1..]);
      assert [d[0]] + d[1..] == d;
    }
  }

  /** `n.to_s.to_i == n` for every natural number. */
  lemma ToIOfDecimal(n: nat)
    ensures ToI(DecimalString(n)) == n
  {
    var r := DecimalString(n);
    assert IsDigit(r[0]);
    assert ToI(r) == DigitsValue(LeadingDigits(r));
    LeadingDigitsOfDigits(r);
    DigitsValueOfDecimal(n);
  }

  /** `("-" + n.to_s).to_i == -n` for every natural number. */
  lemma ToIOfNegativeDecimal(n: nat)
    ensures ToI("-" + DecimalString(n)) == -(n as int)
  {
    var r := DecimalString(n);
    assert ("-" + r)[1..] == r;
    LeadingDigitsOfDigits(r);
    DigitsValueOfDecimal(n);
  }

  /** A string that does not begin with a digit or a sign reads as 0. */
  lemma ToINonNumeric(s: string)
    requires s == [] || (!IsDigit(s[0]) && s[0] != '-' && s[0] != '+')
    ensures ToI(s) == 0
  {
  }
}
