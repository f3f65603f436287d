/**
 * `format_credentials`: every line is stripped of its surrounding '\n'
 * characters and split on the single character ' '; field 0 becomes a key of
 * the credentials dict and field 1 its value. A line with no ' ' has only one
 * field, and reading field 1 raises IndexError, which aborts the whole parse.
 *
 * The parse is stated in two layers: `LineFields` turns one line into its
 * fields, and `InsertRows` is the dict-building loop over the fields of all
 * lines, whose properties do not depend on how a line was split.
 */
module Credentials {
  import opened PyStr
  import opened Results

  /**
   * A Python dict from username to password: the keys in insertion order and
   * the mapping itself. Assigning to an existing key keeps its position.
   */
  datatype Dict = Dict(keys: seq<string>, values: map<string, string>) {

    ghost predicate Valid() {
      && (forall i, j :: 0 <= i < j < |keys| ==> keys[i] != keys[j])
      && (forall k :: k in values <==> k in keys)
    }

    /** `d[k] = v` */
    function Put(k: string, v: string): (d: Dict)
      requires Valid()
      ensures d.Valid()
      ensures d.values == values[k := v]
      ensures k in values ==> d.keys == keys
      ensures k !in values ==> d.keys == keys + [k]
    {
      if k in values then Dict(keys, values[k := v]) else Dict(keys + [k], values[k := v])
    }
  }

  const EmptyDict := Dict([], map[])

  /** Raised by `creds[1]` on the line with this index. */
  datatype ParseError = IndexError(line: nat)

  /** The fields of one line; `split` never returns an empty list. */
  type Fields = f: seq<string> | |f| >= 1 witness [[]]

  /** `line.strip("\n").split(" ")` */
  function LineFields(line: string): Fields
  {
    Split(StripNewlines(line), ' ')
  }

  /** The fields of every line of the file, in order. */
  function Rows(lines: seq<string>): seq<Fields>
  {
    seq(|lines|, i requires 0 <= i < |lines| => LineFields(lines[i]))
  }

  /** The usernames (field 0) of the rows, in order. */
  function RowKeys(rows: seq<Fields>): seq<string>
  {
    seq(|rows|, i requires 0 <= i < |rows| => rows[i][0])
  }

  /** The usernames of all rows are those of all rows but the last, then the last. */
  lemma RowKeysSnoc(rows: seq<Fields>)
    requires rows != []
    ensures RowKeys(rows) == RowKeys(rows[..|rows| - 1]) + [rows[|rows| - 1][0]]
  {
  }

  /** The first position of `x` in `s`. */
  function FirstIndex(s: seq<string>, x: string): (i: nat)
    requires x in s
    ensures i < |s| && s[i] == x
    ensures forall j :: 0 <= j < i ==> s[j] != x
  {
    if s[0] == x then 0 else 1 + FirstIndex(s[1..], x)
  }

  /** The last position of `x` in `s`. */
  function LastIndex(s: seq<string>, x: string): (i: nat)
    requires x in s
    ensures i < |s| && s[i] == x
    ensures forall j :: i < j < |s| ==> s[j] != x
  {
    if s[|s| - 1] == x then |s| - 1 else LastIndex(s[..|s| - 1], x)
  }

  /**
   * `credentials[creds[0]] = creds[1]` for every row in turn; the first row
   * with a single field raises IndexError.
   */
  function InsertRows(rows: seq<Fields>): (r: Result<Dict, ParseError>)
    ensures r.Ok? ==> r.value.Valid() && |r.value.keys| <= |rows|
    ensures r.Err? ==> r.error.line < |rows| && |rows[r.error.line]| < 2
  {
    if rows == [] then Ok(EmptyDict)
    else
      var creds := rows[|rows| - 1];
      match InsertRows(rows[..|rows| - 1])
      case Err(e) => Err(e)
      case Ok(d) =>
        if |creds| >= 2 then Ok(d.Put(creds[0], creds[1]))
        else Err(IndexError(|rows| - 1))
  }

  /** The outcome of `format_credentials` on the lines of the file. */
  function ParseCredentials(lines: seq<string>): Result<Dict, ParseError>
  {
    InsertRows(Rows(lines))
  }

  /** The loop of `format_credentials`, returning at the first IndexError. */
  method FormatCredentials(lines: seq<string>) returns (r: Result<Dict, ParseError>)
    ensures r == ParseCredentials(lines)
  {
    ghost var rows := Rows(lines);
    var credentials := EmptyDict;
    for i := 0 to |lines|
      invariant InsertRows(rows[..i]) == Ok(credentials)
    {
      assert rows[..i + 1][..i] == rows[..i];
      var creds := Split(StripNewlines(lines[i]), ' ');
      assert creds == rows[i];
      if |creds| < 2 {
        ErrorPersists(rows, i + 1);
        return Err(IndexError(i));
      }
      credentials := credentials.Put(creds[0], creds[1]);
    }
    assert rows[..|lines|] == rows;
    r := Ok(credentials);
  }

  /** Once a prefix of the rows has raised, so have all rows, with the same error. */
  lemma {:induction false} ErrorPersists(rows: seq<Fields>, n: nat)
    requires n <= |rows|
    requires InsertRows(rows[..n]).Err?
    ensures InsertRows(rows) == InsertRows(rows[..n])
    decreases |rows| - n
  {
    if n < |rows| {
      var init := rows[..|rows| - 1];
      assert init[..n] == rows[..n];
      ErrorPersists(init, n);
    } else {
      assert rows[..n] == rows;
    }
  }

  /**
   * The parse fails exactly when some row has a single field, and the error
   * names the first such row (by `HasPasswordIffSpace` these are the lines
   * without a space, an empty line included).
   */
  lemma {:induction false} FailsAtFirstRowWithoutPassword(rows: seq<Fields>)
    ensures InsertRows(rows).Err? <==> exists i :: 0 <= i < |rows| && |rows[i]| < 2
    ensures InsertRows(rows).Err? ==>
      forall j :: 0 <= j < InsertRows(rows).error.line ==> |rows[j]| >= 2
  {
    if rows != [] {
      var init := rows[..|rows| - 1];
      FailsAtFirstRowWithoutPassword(init);
      if InsertRows(init).Err? {
        var i :| 0 <= i < |init| && |init[i]| < 2;
        assert rows[i] == init[i];
        forall j | 0 <= j < InsertRows(rows).error.line ensures |rows[j]| >= 2 {
          assert rows[j] == init[j];
        }
      } else {
        forall j | 0 <= j < |init| ensures |rows[j]| >= 2 {
          assert rows[j] == init[j];
        }
      }
    }
  }

  /**
   * A successful parse holds exactly the usernames of the rows, and every row
   * had a password.
   */
  lemma {:induction false} ParsedKeySet(rows: seq<Fields>, d: Dict)
    requires InsertRows(rows) == Ok(d)
    ensures forall i :: 0 <= i < |rows| ==> |rows[i]| >= 2
    ensures forall k :: k in d.values <==> k in RowKeys(rows)
  {
    FailsAtFirstRowWithoutPassword(rows);
    if rows != [] {
      var init := rows[..|rows| - 1];
      RowKeysSnoc(rows);
      ParsedKeySet(init, InsertRows(init).value);
    }
  }

  /** Appending to a sequence does not move the first position of what it already holds. */
  lemma FirstIndexAppend(s: seq<string>, y: string, x: string)
    requires x in s
    ensures FirstIndex(s + [y], x) == FirstIndex(s, x)
  {
    var a, b := FirstIndex(s + [y], x), FirstIndex(s, x);
    assert (s + [y])[b] == x;
    assert s[a] == x;
  }

  /** The keys stand in the order in which their usernames first occur. */
  lemma {:induction false} ParsedKeyOrder(rows: seq<Fields>, d: Dict)
    requires InsertRows(rows) == Ok(d)
    ensures forall k :: k in d.keys ==> k in RowKeys(rows)
    ensures forall p, q :: 0 <= p < q < |d.keys| ==>
      FirstIndex(RowKeys(rows), d.keys[p]) < FirstIndex(RowKeys(rows), d.keys[q])
  {
    ParsedKeySet(rows, d);
    if rows != [] {
      var init := rows[..|rows| - 1];
      var d' := InsertRows(init).value;
      var ks, ks' := RowKeys(rows), RowKeys(init);
      var k := rows[|rows| - 1][0];
      RowKeysSnoc(rows);
      ParsedKeyOrder(init, d');
      ParsedKeySet(init, d');
      forall p, q | 0 <= p < q < |d.keys|
        ensures FirstIndex(ks, d.keys[p]) < FirstIndex(ks, d.keys[q])
      {
        FirstIndexAppend(ks', k, d.keys[p]);
        if q < |d'.keys| {
          assert d.keys[q] == d'.keys[q];
          FirstIndexAppend(ks', k, d.keys[q]);
        } else {
          assert d.keys[q] == k && k !in ks';
        }
      }
    }
  }

  /** A repeated username keeps the password of its last row. */
  lemma {:induction false} LastPasswordWins(rows: seq<Fields>, d: Dict, k: string)
    requires InsertRows(rows) == Ok(d)
    requires k in d.values
    ensures k in RowKeys(rows)
    ensures |rows[LastIndex(RowKeys(rows), k)]| >= 2
    ensures d.values[k] == rows[LastIndex(RowKeys(rows), k)][1]
  {
    ParsedKeySet(rows, d);
    var init := rows[..|rows| - 1];
    var creds := rows[|rows| - 1];
    var d' := InsertRows(init).value;
    var ks, ks' := RowKeys(rows), RowKeys(init);
    RowKeysSnoc(rows);
    if creds[0] != k {
      LastPasswordWins(init, d', k);
      var a, b := LastIndex(ks, k), LastIndex(ks', k);
      assert ks[b] == k;
      assert ks'[a] == k;
      assert rows[a] == init[a];
    }
  }

  /** A line has a password field exactly when it holds a space. */
  lemma HasPasswordIffSpace(line: string)
    ensures |LineFields(line)| >= 2 <==> ' ' in line
  {
    StripNewlinesKeeps(line, ' ');
    SplitFields(StripNewlines(line), ' ');
  }

  /**
   * The fields of a line with a space: the username is the text before the
   * first space, the password the text up to the next space or the end, and
   * whatever follows is ignored.
   */
  lemma {:induction false} CredentialLineShape(line: string)
    requires ' ' in line
    ensures ' ' !in LineFields(line)[0]
    ensures |LineFields(line)| >= 2 && ' ' !in LineFields(line)[1]
    ensures exists rest ::
              && (rest == [] || rest[0] == ' ')
              && StripNewlines(line) == LineFields(line)[0] + " " + LineFields(line)[1] + rest
  {
    HasPasswordIffSpace(line);
    var fields := LineFields(line);
    var s := StripNewlines(line);
    SplitFields(s, ' ');
    var tail := fields[1..];
    var rest: string := if |tail| == 1 then [] else [' '] + Join(tail[1..], ' ');
    assert s == fields[0] + [' '] + Join(tail, ' ');
    assert Join(tail, ' ') == fields[1] + rest;
    assert s == fields[0] + " " + fields[1] + rest;
    assert rest == [] || rest[0] == ' ';
  }

  /** Two spaces in a row give an empty password; a third field is ignored. */
  lemma DoubleSpaceGivesEmptyPassword()
    ensures LineFields("alice  pw") == ["alice", "", "pw"]
  {
    var fields := ["alice", "", "pw"];
    StripNewlinesNoop("alice  pw");
    assert Join(fields, ' ') == "alice  pw";
    SplitJoin(fields, ' ');
  }

  /**
   * The loop as evidently intended: a row without a password is skipped
   * instead of aborting the whole parse.
   */
  function InsertRowsSkipping(rows: seq<Fields>): (d: Dict)
    ensures d.Valid() && |d.keys| <= |rows|
  {
    if rows == [] then EmptyDict
    else
      var creds := rows[|rows| - 1];
      var d := InsertRowsSkipping(rows[..|rows| - 1]);
      if |creds| >= 2 then d.Put(creds[0], creds[1]) else d
  }

  /**
   * The skipping parse agrees with the original whenever the original
   * succeeds, never fails, and its keys are exactly the usernames of the rows
   * that have a password.
   */
  lemma {:induction false} SkippingParse(rows: seq<Fields>)
    ensures InsertRows(rows).Ok? ==> InsertRows(rows).value == InsertRowsSkipping(rows)
    ensures forall k :: k in InsertRowsSkipping(rows).values <==>
      exists i :: 0 <= i < |rows| && |rows[i]| >= 2 && rows[i][0] == k
  {
    if rows != [] {
      var init := rows[..|rows| - 1];
      var creds := rows[|rows| - 1];
      SkippingParse(init);
      forall k | exists i :: 0 <= i < |rows| && |rows[i]| >= 2 && rows[i][0] == k
        ensures k in InsertRowsSkipping(rows).values
      {
        var i :| 0 <= i < |rows| && |rows[i]| >= 2 && rows[i][0] == k;
        if i < |init| { assert init[i] == rows[i]; }
      }
      forall k | k in InsertRowsSkipping(init).values
        ensures exists i :: 0 <= i < |rows| && |rows[i]| >= 2 && rows[i][0] == k
      {
        var i :| 0 <= i < |init| && |init[i]| >= 2 && init[i][0] == k;
        assert rows[i] == init[i];
      }
    }
  }

  /** The rows that have a password, in their original order. */
  function WithPassword(rows: seq<Fields>): (r: seq<Fields>)
    ensures |r| <= |rows|
    ensures forall i :: 0 <= i < |r| ==> |r[i]| >= 2
  {
    if rows == [] then []
    else
      var creds := rows[|rows| - 1];
      WithPassword(rows[..|rows| - 1]) + (if |creds| >= 2 then [creds] else [])
  }

  /**
   * The skipping parse is the original parse of the rows that have a
   * password, so it never fails, and `ParsedKeyOrder` and `LastPasswordWins`
   * carry over to it: keys in order of first occurrence, last password wins.
   */
  lemma {:induction false} SkippingParseIsParseOfPasswordRows(rows: seq<Fields>)
    ensures InsertRows(WithPassword(rows)) == Ok(InsertRowsSkipping(rows))
  {
    if rows != [] {
      var init := rows[..|rows| - 1];
      var creds := rows[|rows| - 1];
      var w := WithPassword(init);
      SkippingParseIsParseOfPasswordRows(init);
      if |creds| >= 2 {
        assert (w + [creds])[..|w|] == w;
      } else {
        assert w + [] == w;
      }
    }
  }

  /**
   * A blank line after a valid one: the original parse raises IndexError on
   * line 1 and loses the valid entry; the skipping parse keeps it.
   */
  lemma BlankLineAbortsParse()
    ensures ParseCredentials(["alice secret1\n", "\n"]) == Err(IndexError(1))
    ensures InsertRowsSkipping(Rows(["alice secret1\n", "\n"])).values == map["alice" := "secret1"]
  {
    var lines := ["alice secret1\n", "\n"];
    var s := "alice secret1\n";
    var r := StripNewlines(s);
    assert r == "alice secret1" by {
      StripNewlinesSlice(s);
      var i, j :| 0 <= i <= j <= |s| && r == s[i..j]
        && (forall k :: 0 <= k < i ==> s[k] == '\n')
        && (forall k :: j <= k < |s| ==> s[k] == '\n');
      assert s[0] != '\n' && s[12] != '\n';
      assert i == 0;
      assert j > 12;
      assert j != 14 by { assert s[0..14][13] == '\n'; }
    }
    var fields := ["alice", "secret1"];
    assert Join(fields, ' ') == "alice secret1";
    SplitJoin(fields, ' ');
    assert StripNewlines("\n") == [];
    var rows := Rows(lines);
    assert rows == [["alice", "secret1"], [[]]];
    assert rows[..1] == [["alice", "secret1"]];
    assert rows[..1][..0] == [];
  }
}
