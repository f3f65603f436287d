/**
 * The three Python `str` methods the scripts rely on, on `seq<char>`. The
 * functions carry only the bounds their callers need; what they mean is
 * stated by the lemmas after them.
 */
module PyStr {

  /** Length of the run of '\n' characters at the start of `s`. */
  function LeadingNewlines(s: string): (n: nat)
    ensures n <= |s|
  {
    if s == [] || s[0] != '\n' then 0 else 1 + LeadingNewlines(s[1..])
  }

  /** Index at which the run of '\n' characters at the end of `s` begins. */
  function TrailingStart(s: string): (n: nat)
    ensures n <= |s|
  {
    if s == [] || s[|s| - 1] != '\n' then |s| else TrailingStart(s[..|s| - 1])
  }

  /** Python's `s.strip("\n")`. */
  function StripNewlines(s: string): string
  {
    var i, j := LeadingNewlines(s), TrailingStart(s);
    if i <= j then s[i..j] else []
  }

  /** The leading run is maximal and holds only '\n'. */
  lemma {:induction false} LeadingNewlinesRun(s: string)
    ensures forall k :: 0 <= k < LeadingNewlines(s) ==> s[k] == '\n'
    ensures LeadingNewlines(s) < |s| ==> s[LeadingNewlines(s)] != '\n'
  {
    if s != [] && s[0] == '\n' {
      LeadingNewlinesRun(s[1..]);
    }
  }

  /** The trailing run is maximal and holds only '\n'. */
  lemma {:induction false} TrailingStartRun(s: string)
    ensures forall k :: TrailingStart(s) <= k < |s| ==> s[k] == '\n'
    ensures 0 < TrailingStart(s) ==> s[TrailingStart(s) - 1] != '\n'
  {
    if s != [] && s[|s| - 1] == '\n' {
      TrailingStartRun(s[..|s| - 1]);
    }
  }

  /**
   * `strip("\n")` removes every '\n' at either end and nothing else: the
   * result is a slice of `s` that neither starts nor ends with '\n', and the
   * parts cut off hold only '\n'.
   */
  lemma StripNewlinesSlice(s: string)
    ensures var r := StripNewlines(s); r == [] || (r[0] != '\n' && r[|r| - 1] != '\n')
    ensures exists i, j ::
              && 0 <= i <= j <= |s| && StripNewlines(s) == s[i..j]
              && (forall k :: 0 <= k < i ==> s[k] == '\n')
              && (forall k :: j <= k < |s| ==> s[k] == '\n')
  {
    LeadingNewlinesRun(s);
    TrailingStartRun(s);
    var i, j := LeadingNewlines(s), TrailingStart(s);
    if j < i {
      assert i == |s| && forall k :: 0 <= k < |s| ==> s[k] == '\n';
      assert StripNewlines(s) == s[0..0];
    }
  }

  /** Stripping keeps every character other than '\n' that `s` holds. */
  lemma StripNewlinesKeeps(s: string, c: char)
    requires c != '\n'
    ensures c in StripNewlines(s) <==> c in s
  {
    LeadingNewlinesRun(s);
    TrailingStartRun(s);
    var i, j := LeadingNewlines(s), TrailingStart(s);
    if c in s {
      var k :| 0 <= k < |s| && s[k] == c;
      assert i <= k < j;
      assert s[i..j][k - i] == c;
    }
  }

  /** A string without '\n' is left as it is. */
  lemma StripNewlinesNoop(s: string)
    requires '\n' !in s
    ensures StripNewlines(s) == s
  {
    LeadingNewlinesRun(s);
    TrailingStartRun(s);
    assert LeadingNewlines(s) == 0 && TrailingStart(s) == |s|;
    assert s[0..|s|] == s;
  }

  /** `fields` joined back together with `c` between neighbours (Python's `c.join`). */
  function Join(fields: seq<string>, c: char): string
    requires |fields| >= 1
  {
    if |fields| == 1 then fields[0] else fields[0] + [c] + Join(fields[1..], c)
  }

  /**
   * Python's `s.split(c)` with an explicit separator: cuts at every `c` and
   * keeps empty fields.
   */
  function Split(s: string, c: char): (fields: seq<string>)
    ensures |fields| >= 1
    decreases |s|
  {
    if s == [] then [[]]
    else
      var rest := Split(s[1..], c);
      if s[0] == c then [[]] + rest else [[s[0]] + rest[0]] + rest[1..]
  }

  /**
   * No field holds the separator, joining the fields gives back `s`, and
   * there is a single field exactly when `s` holds no separator.
   */
  lemma {:induction false} SplitFields(s: string, c: char)
    ensures forall i :: 0 <= i < |Split(s, c)| ==> c !in Split(s, c)[i]
    ensures Join(Split(s, c), c) == s
    ensures |Split(s, c)| == 1 <==> c !in s
    decreases |s|
  {
    if s != [] {
      var rest := Split(s[1..], c);
      SplitFields(s[1..], c);
      assert s == [s[0]] + s[1..];
      if s[0] != c {
        var fields := Split(s, c);
        assert fields[1..] == rest[1..];
        assert fields[0] == [s[0]] + rest[0];
      }
    }
  }

  /** A field followed by a separator is split off as the first field. */
  lemma {:induction false} SplitFirstField(f: string, t: string, c: char)
    requires c !in f
    ensures Split(f + [c] + t, c) == [f] + Split(t, c)
    decreases |f|
  {
    if f == [] {
      assert f + [c] + t == [c] + t;
      assert ([c] + t)[1..] == t;
    } else {
      assert (f + [c] + t)[1..] == f[1..] + [c] + t;
      SplitFirstField(f[1..], t, c);
      assert [f[0]] + f[1..] == f;
    }
  }

  /** A string without the separator is its own only field. */
  lemma {:induction false} SplitNoSeparator(f: string, c: char)
    requires c !in f
    ensures Split(f, c) == [f]
    decreases |f|
  {
    if f != [] {
      SplitNoSeparator(f[1..], c);
      assert [f[0]] + f[1..] == f;
    }
  }

  /** Split is the inverse of Join on fields that do not contain the separator. */
  lemma {:induction false} SplitJoin(fields: seq<string>, c: char)
    requires |fields| >= 1
    requires forall i :: 0 <= i < |fields| ==> c !in fields[i]
    ensures Split(Join(fields, c), c) == fields
  {
    if |fields| == 1 {
      SplitNoSeparator(fields[0], c);
    } else {
      SplitJoin(fields[1..], c);
      SplitFirstField(fields[0], Join(fields[1..], c), c);
      assert [fields[0]] + fields[1..] == fields;
    }
  }

  /** Python's `str.lower()` on one character, for ASCII letters. */
  function LowerChar(ch: char): char
  {
    if 'A' <= ch <= 'Z' then (ch as int - 'A' as int + 'a' as int) as char else ch
  }

  /** Python's `str.lower()`, for ASCII letters. */
  function Lower(s: string): string
  {
    seq(|s|, i requires 0 <= i < |s| => LowerChar(s[i]))
  }
}
