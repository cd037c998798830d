/** The string operations the controllers use: `split` on one character,
    `join`, the last or second `.`-segment of a qualified name, and `trim`. */
module Text {
  import opened Js

  /** `s.split(sep)` for a one-character separator: the pieces between
      separators, always at least one. */
  function Split(s: string, sep: char): (parts: seq<string>)
    ensures |parts| >= 1
    ensures forall i :: 0 <= i < |parts| ==> sep !in parts[i]
    ensures sep !in s ==> parts == [s]
    ensures sep in s ==> |parts| > 1
    ensures parts[0] <= s
  {
    if s == [] then [""]
    else
      var rest := Split(s[1..], sep);
      if s[0] == sep then [""] + rest
      else
        assert s == [s[0]] + s[1..];
        [[s[0]] + rest[0]] + rest[1..]
  }

  /** `parts.join(sep)` */
  function Join(parts: seq<string>, sep: string): string {
    if |parts| == 0 then ""
    else if |parts| == 1 then parts[0]
    else parts[0] + sep + Join(parts[1..], sep)
  }

  /** Joining the pieces of a split gives the text back. */
  lemma {:induction false} JoinSplit(s: string, sep: char)
    ensures Join(Split(s, sep), [sep]) == s
  {
    if s != [] {
      var rest := Split(s[1..], sep);
      JoinSplit(s[1..], sep);
      if s[0] == sep {
        assert Split(s, sep) == [""] + rest;
        assert ([""] + rest)[1..] == rest;
      } else {
        var parts := [[s[0]] + rest[0]] + rest[1..];
        assert Split(s, sep) == parts;
        if |rest| == 1 {
          assert Join(parts, [sep]) == [s[0]] + rest[0];
        } else {
          assert parts[1..] == rest[1..];
          assert Join(rest, [sep]) == rest[0] + [sep] + Join(rest[1..], [sep]);
        }
      }
    }
  }

  /** One step of `Split` on a non-separator first character. */
  lemma SplitCons(s: string, sep: char)
    requires |s| > 0 && s[0] != sep
    ensures Split(s, sep) == [[s[0]] + Split(s[1..], sep)[0]] + Split(s[1..], sep)[1..]
  {
  }

  /** Splitting text that starts with a separator-free prefix glues that
      prefix onto the first piece. */
  lemma {:induction false} SplitPrefix(a: string, t: string, sep: char)
    requires sep !in a
    ensures Split(a + t, sep) == [a + Split(t, sep)[0]] + Split(t, sep)[1..]
  {
    var x := Split(t, sep);
    if a == [] {
      assert a + t == t;
      assert a + x[0] == x[0];
      assert [x[0]] + x[1..] == x;
    } else {
      var s := a + t;
      assert s[0] == a[0] && s[1..] == a[1..] + t;
      SplitPrefix(a[1..], t, sep);
      SplitCons(s, sep);
      var su := Split(s[1..], sep);
      assert su[0] == a[1..] + x[0] && su[1..] == x[1..];
      assert [s[0]] + su[0] == a + x[0];
    }
  }

  /** Splitting a join of separator-free, non-empty lists gives the list back:
      the `$expand` and key-predicate strings can be read back unambiguously. */
  lemma {:induction false} SplitJoin(parts: seq<string>, sep: char)
    requires |parts| >= 1
    requires forall i :: 0 <= i < |parts| ==> sep !in parts[i]
    ensures Split(Join(parts, [sep]), sep) == parts
  {
    if |parts| == 1 {
      SplitPrefix(parts[0], "", sep);
      assert parts[0] + "" == parts[0];
    } else {
      var tail := Join(parts[1..], [sep]);
      SplitJoin(parts[1..], sep);
      assert Join(parts, [sep]) == parts[0] + ([sep] + tail);
      SplitPrefix(parts[0], [sep] + tail, sep);
      assert ([sep] + tail)[1..] == tail;
      assert Split([sep] + tail, sep) == [""] + parts[1..];
      assert parts[0] + "" == parts[0];
      assert parts == [parts[0]] + parts[1..];
    }
  }

  /** `s.split('.').pop()`: the text after the last dot, the whole text
      when there is none. */
  function LastSegment(s: string): string {
    var parts := Split(s, '.');
    parts[|parts| - 1]
  }

  /** What the last segment is: a dot-free suffix of the name that is the
      whole name or is preceded by a dot. */
  lemma {:induction false} LastSegmentSpec(s: string)
    ensures '.' !in LastSegment(s)
    ensures |LastSegment(s)| <= |s| && s[|s| - |LastSegment(s)|..] == LastSegment(s)
    ensures |LastSegment(s)| < |s| ==> s[|s| - |LastSegment(s)| - 1] == '.'
    ensures '.' !in s ==> LastSegment(s) == s
  {
    if s != [] {
      var rest := Split(s[1..], '.');
      LastSegmentSpec(s[1..]);
      var r' := LastSegment(s[1..]);
      assert s[1..][|s| - 1 - |r'|..] == s[|s| - |r'|..];
      if s[0] == '.' {
        assert Split(s, '.') == [""] + rest;
      } else {
        assert Split(s, '.') == [[s[0]] + rest[0]] + rest[1..];
        if |rest| == 1 {
          assert '.' !in s[1..];
          assert rest == [s[1..]];
          assert LastSegment(s) == [s[0]] + s[1..] == s;
        } else {
          assert LastSegment(s) == r';
          assert '.' in s[1..];
          assert |r'| < |s| - 1;
        }
      }
    }
  }

  /** `s.split('.')[1]`: the second segment, undefined when there is no dot. */
  function SecondSegment(s: string): (r: Option<string>)
    ensures r.None? <==> '.' !in s
    ensures r.Some? ==> '.' !in r.value
  {
    var parts := Split(s, '.');
    if |parts| > 1 then Some(parts[1]) else None
  }

  /** `s.split(sep)[0]`: the text before the first separator. */
  function BeforeFirst(s: string, sep: char): (r: string)
    ensures r <= s && sep !in r
    ensures sep !in s ==> r == s
    ensures sep in s ==> |r| < |s| && s[|r|] == sep
  {
    BeforeFirstSpec(s, sep);
    Split(s, sep)[0]
  }

  lemma {:induction false} BeforeFirstSpec(s: string, sep: char)
    ensures sep in s ==> |Split(s, sep)[0]| < |s| && s[|Split(s, sep)[0]|] == sep
  {
    if s != [] && s[0] != sep && sep in s {
      var r' := Split(s[1..], sep)[0];
      assert sep in s[1..] by {
        var k :| 0 <= k < |s| && s[k] == sep;
        assert s[1..][k - 1] == sep;
      }
      BeforeFirstSpec(s[1..], sep);
      SplitCons(s, sep);
      assert Split(s, sep)[0] == [s[0]] + r';
      assert s[|r'| + 1] == s[1..][|r'|];
    }
  }

  /** The characters `String.prototype.trim` removes: white space and line
      terminators. */
  predicate IsTrimmable(c: char) {
    c == ' ' || c == '\t' || c == '\n' || c == '\r' || c == '\U{000B}' || c == '\U{000C}'
    || c == '\U{00A0}' || c == '\U{1680}' || ('\U{2000}' <= c <= '\U{200A}')
    || c == '\U{2028}' || c == '\U{2029}' || c == '\U{202F}' || c == '\U{205F}'
    || c == '\U{3000}' || c == '\U{FEFF}'
  }

  function TrimStart(s: string): (r: string)
    ensures |r| <= |s| && r == s[|s| - |r|..]
    ensures forall i :: 0 <= i < |s| - |r| ==> IsTrimmable(s[i])
    ensures r == [] || !IsTrimmable(r[0])
  {
    if s != [] && IsTrimmable(s[0]) then TrimStart(s[1..]) else s
  }

  function TrimEnd(s: string): (r: string)
    ensures r <= s
    ensures forall i :: |r| <= i < |s| ==> IsTrimmable(s[i])
    ensures r == [] || !IsTrimmable(r[|r| - 1])
  {
    if s != [] && IsTrimmable(s[|s| - 1]) then TrimEnd(s[..|s| - 1]) else s
  }

  /** `s.trim()`: empty exactly when the text is all white space. */
  function Trim(s: string): (r: string)
    ensures r == [] <==> forall i :: 0 <= i < |s| ==> IsTrimmable(s[i])
    ensures r != [] ==> !IsTrimmable(r[0]) && !IsTrimmable(r[|r| - 1])
  {
    var t := TrimStart(s);
    var r := TrimEnd(t);
    assert r == [] ==> t == [];
    r
  }
}
