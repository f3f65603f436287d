/**
 * `parse_rhosts_file`: the host list. Each line loses its surrounding '\n'
 * characters and is kept when the IP-literal check accepts it; otherwise it
 * is reported and skipped. The check (`ipaddress.ip_address`) is the
 * parameter `isIp`.
 */
module Rhosts {
  import opened PyStr

  /** The '\n'-stripped form of every line, in order. */
  function Stripped(lines: seq<string>): (r: seq<string>)
  {
    seq(|lines|, i requires 0 <= i < |lines| => StripNewlines(lines[i]))
  }

  /** The hosts the parse keeps, in input order. */
  function ValidHosts(lines: seq<string>, isIp: string -> bool): seq<string>
  {
    if lines == [] then []
    else
      var ip := StripNewlines(lines[|lines| - 1]);
      var kept := ValidHosts(lines[..|lines| - 1], isIp);
      if isIp(ip) then kept + [ip] else kept
  }

  /** The stripped lines that are reported as invalid, in input order. */
  function InvalidHosts(lines: seq<string>, isIp: string -> bool): seq<string>
  {
    if lines == [] then []
    else
      var ip := StripNewlines(lines[|lines| - 1]);
      var skipped := InvalidHosts(lines[..|lines| - 1], isIp);
      if isIp(ip) then skipped else skipped + [ip]
  }

  /**
   * The loop of `parse_rhosts_file` over the lines of the file. An invalid
   * line never aborts the parse: it only adds to `warnings`.
   */
  method ParseRhostsFile(lines: seq<string>, isIp: string -> bool)
    returns (rhosts: seq<string>, warnings: seq<string>)
    ensures rhosts == ValidHosts(lines, isIp)
    ensures warnings == InvalidHosts(lines, isIp)
  {
    rhosts, warnings := [], [];
    for i := 0 to |lines|
      invariant rhosts == ValidHosts(lines[..i], isIp)
      invariant warnings == InvalidHosts(lines[..i], isIp)
    {
      assert lines[..i + 1][..i] == lines[..i];
      var ip := StripNewlines(lines[i]);
      if isIp(ip) {
        rhosts := rhosts + [ip];
      } else {
        warnings := warnings + [ip];
      }
    }
    assert lines[..|lines|] == lines;
  }

  /** Order is preserved: the hosts of a concatenation are the concatenated hosts. */
  lemma {:induction false} ValidHostsAppend(a: seq<string>, b: seq<string>, isIp: string -> bool)
    ensures ValidHosts(a + b, isIp) == ValidHosts(a, isIp) + ValidHosts(b, isIp)
    decreases |b|
  {
    if b == [] {
      assert a + b == a;
    } else {
      var b' := b[..|b| - 1];
      assert (a + b)[..|a + b| - 1] == a + b';
      assert (a + b)[|a + b| - 1] == b[|b| - 1];
      ValidHostsAppend(a, b', isIp);
    }
  }

  /** One line on its own: kept, stripped, exactly when the check accepts it. */
  lemma {:induction false} ValidHostsSingle(line: string, isIp: string -> bool)
    ensures ValidHosts([line], isIp) ==
      (if isIp(StripNewlines(line)) then [StripNewlines(line)] else [])
  {
    assert [line][..0] == [];
  }

  /**
   * Every line goes to exactly one of the two outputs, so the host list is
   * never longer than the input.
   */
  lemma {:induction false} HostsPartition(lines: seq<string>, isIp: string -> bool)
    ensures |ValidHosts(lines, isIp)| + |InvalidHosts(lines, isIp)| == |lines|
    ensures multiset(ValidHosts(lines, isIp)) + multiset(InvalidHosts(lines, isIp))
         == multiset(Stripped(lines))
    ensures |ValidHosts(lines, isIp)| <= |lines|
  {
    if lines != [] {
      var init := lines[..|lines| - 1];
      HostsPartition(init, isIp);
      assert Stripped(lines) == Stripped(init) + [StripNewlines(lines[|lines| - 1])];
    }
  }

  /**
   * Duplicates are preserved: a host occurs in the result as often as it
   * occurs among the stripped lines when the check accepts it, and never
   * otherwise.
   */
  lemma {:induction false} ValidHostsMultiplicity(lines: seq<string>, isIp: string -> bool, x: string)
    ensures multiset(ValidHosts(lines, isIp))[x] ==
      (if isIp(x) then multiset(Stripped(lines))[x] else 0)
  {
    if lines != [] {
      var init := lines[..|lines| - 1];
      var ip := StripNewlines(lines[|lines| - 1]);
      ValidHostsMultiplicity(init, isIp, x);
      assert Stripped(lines) == Stripped(init) + [ip];
      assert multiset(Stripped(lines))[x] == multiset(Stripped(init))[x] + (if ip == x then 1 else 0);
      if isIp(ip) {
        assert ValidHosts(lines, isIp) == ValidHosts(init, isIp) + [ip];
      } else {
        assert ValidHosts(lines, isIp) == ValidHosts(init, isIp);
      }
    }
  }

  /**
   * Every kept host is the stripped form of some input line and passes the
   * check, and every such stripped line is kept.
   */
  lemma ValidHostsMembers(lines: seq<string>, isIp: string -> bool, x: string)
    ensures x in ValidHosts(lines, isIp) <==>
      isIp(x) && exists i :: 0 <= i < |lines| && StripNewlines(lines[i]) == x
  {
    ValidHostsMultiplicity(lines, isIp, x);
    var s := Stripped(lines);
    assert x in s <==> exists i :: 0 <= i < |lines| && StripNewlines(lines[i]) == x by {
      if x in s {
        var i :| 0 <= i < |s| && s[i] == x;
        assert StripNewlines(lines[i]) == x;
      }
      if exists i :: 0 <= i < |lines| && StripNewlines(lines[i]) == x {
        var i :| 0 <= i < |lines| && StripNewlines(lines[i]) == x;
        assert s[i] == x;
      }
    }
  }
}
