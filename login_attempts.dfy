/**
 * `concurrent_login_attempts`, run sequentially. For every credential in dict
 * order, one probe is submitted per entry of the host list; the futures then
 * complete in an order chosen by the pool (`as_completed`), given here as a
 * parameter, and every successful probe is written into the results dict.
 *
 * The probes `ssh_test` and `ftp_test` catch every exception and return
 * False, so they are modelled as a total function `probe` on the service
 * and the attempt.
 *
 * As written, the successful-probe branches cannot run: line 118 reads `ip`,
 * which is bound only inside the comprehension on line 115 (NameError), and
 * line 123 calls `append` on a dict (AttributeError). The model keeps both:
 * `ConcurrentLoginAttemptsAsWritten` raises at the first success, and
 * `ConcurrentLoginAttempts` stores the record under the host the future was
 * submitted for (`results[future]`), for both services.
 */
module LoginAttempts {
  import opened PyStr
  import opened Results
  import opened Credentials

  datatype ServiceKind = Ssh | Ftp

  /** One submitted probe: `ssh_test(username, password, ip)` or `ftp_test(...)`. */
  datatype Attempt = Attempt(user: string, password: string, host: string)

  /** The record stored per host: {"username": …, "password": …, "login": …}. */
  datatype Login = Login(username: string, password: string, login: bool)

  /** The results dict, keyed by host. */
  type Report = map<string, Login>

  /** What the successful-probe branch raises as written. */
  datatype AttemptError = NameError | AttributeError

  /** `ssh_test` for `Ssh`, `ftp_test` for `Ftp`. */
  type Probe = (ServiceKind, Attempt) -> bool

  /** `service.lower() == "ssh"` and `service.lower() == "ftp"`. */
  function ServiceOf(service: string): (kind: Option<ServiceKind>)
    ensures kind == Some(Ssh) <==>
      |service| == 3 && service[0] in "sS" && service[1] in "sS" && service[2] in "hH"
    ensures kind == Some(Ftp) <==>
      |service| == 3 && service[0] in "fF" && service[1] in "tT" && service[2] in "pP"
  {
    var lowered := Lower(service);
    LowerThreeLetters(service);
    if lowered == "ssh" then Some(Ssh) else if lowered == "ftp" then Some(Ftp) else None
  }

  /** Lower-casing a three-letter name character by character. */
  lemma LowerThreeLetters(s: string)
    ensures Lower(s) == "ssh" <==> |s| == 3 && s[0] in "sS" && s[1] in "sS" && s[2] in "hH"
    ensures Lower(s) == "ftp" <==> |s| == 3 && s[0] in "fF" && s[1] in "tT" && s[2] in "pP"
  {
    if |s| == 3 {
      LowerCharLetter(s[0]);
      LowerCharLetter(s[1]);
      LowerCharLetter(s[2]);
      assert Lower(s) == [LowerChar(s[0]), LowerChar(s[1]), LowerChar(s[2])];
    }
  }

  /** Lower-casing yields a given lower-case letter only from that letter or its capital. */
  lemma LowerCharLetter(ch: char)
    ensures LowerChar(ch) == 's' <==> ch in "sS"
    ensures LowerChar(ch) == 'h' <==> ch in "hH"
    ensures LowerChar(ch) == 'f' <==> ch in "fF"
    ensures LowerChar(ch) == 't' <==> ch in "tT"
    ensures LowerChar(ch) == 'p' <==> ch in "pP"
  {
  }

  /** The exception the branch of `kind` raises on its first successful probe. */
  function ErrorOf(kind: ServiceKind): AttemptError
  {
    match kind
    case Ssh => NameError
    case Ftp => AttributeError
  }

  /** Line 115: one attempt per entry of the host list, in list order. */
  function Batch(user: string, password: string, hosts: seq<string>): seq<Attempt>
  {
    if hosts == [] then []
    else Batch(user, password, hosts[..|hosts| - 1]) + [Attempt(user, password, hosts[|hosts| - 1])]
  }

  /** The batches of every credential of `keys`, in that order. */
  function AllAttempts(keys: seq<string>, values: map<string, string>, hosts: seq<string>): seq<Attempt>
    requires forall k :: k in keys ==> k in values
  {
    if keys == [] then []
    else
      var k := keys[|keys| - 1];
      AllAttempts(keys[..|keys| - 1], values, hosts) + Batch(k, values[k], hosts)
  }

  /** Everything the function submits: nothing for a service other than ssh or ftp. */
  function Submitted(service: string, credentials: Dict, hosts: seq<string>): seq<Attempt>
    requires credentials.Valid()
  {
    if ServiceOf(service).None? then [] else AllAttempts(credentials.keys, credentials.values, hosts)
  }

  /** The distinct hosts of the list. */
  function HostSet(hosts: seq<string>): set<string>
  {
    set h | h in hosts
  }

  /** The hosts of `hosts` on which the probe accepts the credential. */
  function Hits(kind: ServiceKind, user: string, password: string, hosts: set<string>, probe: Probe): set<string>
  {
    set h | h in hosts && probe(kind, Attempt(user, password, h))
  }

  /** The report once the successes of one batch are written into it. */
  function Merge(report: Report, user: string, password: string, hits: set<string>): Report
  {
    map h | h in report.Keys + hits :: if h in hits then Login(user, password, true) else report[h]
  }

  /** The report after the batches of `keys`, with every success keyed by its host. */
  function ReportFor(kind: ServiceKind, keys: seq<string>, values: map<string, string>,
                     hosts: seq<string>, probe: Probe): Report
    requires forall k :: k in keys ==> k in values
  {
    if keys == [] then map[]
    else
      var k := keys[|keys| - 1];
      Merge(ReportFor(kind, keys[..|keys| - 1], values, hosts, probe), k, values[k],
            Hits(kind, k, values[k], HostSet(hosts), probe))
  }

  /** The results dict as evidently intended; empty for a service other than ssh or ftp. */
  function ExpectedReport(service: string, credentials: Dict, hosts: seq<string>, probe: Probe): Report
    requires credentials.Valid()
  {
    match ServiceOf(service)
    case None => map[]
    case Some(kind) => ReportFor(kind, credentials.keys, credentials.values, hosts, probe)
  }

  /** Whether some credential succeeds on some host. */
  predicate AnySuccess(kind: ServiceKind, keys: seq<string>, values: map<string, string>,
                       hosts: seq<string>, probe: Probe)
    requires forall k :: k in keys ==> k in values
  {
    exists i :: 0 <= i < |keys| && Hits(kind, keys[i], values[keys[i]], HostSet(hosts), probe) != {}
  }

  /** The outcome as written: nothing is ever stored, and the first success raises. */
  function AsWrittenOutcome(service: string, credentials: Dict, hosts: seq<string>, probe: Probe)
    : Result<Report, AttemptError>
    requires credentials.Valid()
  {
    match ServiceOf(service)
    case None => Ok(map[])
    case Some(kind) =>
      if AnySuccess(kind, credentials.keys, credentials.values, hosts, probe) then Err(ErrorOf(kind))
      else Ok(map[])
  }

  /** An order in which `as_completed` can yield the `n` futures of one batch: each once. */
  predicate IsCompletionOrder(order: seq<nat>, n: nat)
  {
    && |order| == n
    && (forall i :: 0 <= i < |order| ==> order[i] < n)
    && (forall j :: 0 <= j < n ==> j in order)
  }

  /** The hosts of the futures that completed, given by their positions in the list. */
  function Reached(hosts: seq<string>, order: seq<nat>): set<string>
  {
    set i | i in order && i < |hosts| :: hosts[i]
  }

  /** Lines 116-118 for one batch, keyed by the submitted host, in completion order. */
  function Completed(report: Report, kind: ServiceKind, user: string, password: string,
                     hosts: seq<string>, order: seq<nat>, probe: Probe): Report
    requires forall i :: 0 <= i < |order| ==> order[i] < |hosts|
  {
    if order == [] then report
    else
      var r := Completed(report, kind, user, password, hosts, order[..|order| - 1], probe);
      var ip := hosts[order[|order| - 1]];
      if probe(kind, Attempt(user, password, ip)) then r[ip := Login(user, password, true)] else r
  }

  /**
   * `concurrent_login_attempts` as written: nothing is stored, and the first
   * successful probe raises NameError (ssh) or AttributeError (ftp).
   * `completions[i]` is the order in which the futures of credential `i`
   * complete.
   */
  method ConcurrentLoginAttemptsAsWritten(service: string, credentials: Dict, rhosts: seq<string>,
                                          probe: Probe, completions: seq<seq<nat>>)
    returns (outcome: Result<Report, AttemptError>)
    requires credentials.Valid()
    requires |completions| == |credentials.keys|
    requires forall i :: 0 <= i < |completions| ==> IsCompletionOrder(completions[i], |rhosts|)
    ensures outcome == AsWrittenOutcome(service, credentials, rhosts, probe)
  {
    var kind := ServiceOf(service);
    var keys, values := credentials.keys, credentials.values;
    for i := 0 to |keys|
      invariant kind.Some? ==>
        forall i' :: 0 <= i' < i ==> Hits(kind.value, keys[i'], values[keys[i']], HostSet(rhosts), probe) == {}
    {
      var username := keys[i];
      var password := values[username];
      if kind.Some? {
        var order := completions[i];
        for j := 0 to |order|
          invariant forall j' :: 0 <= j' < j ==> !probe(kind.value, Attempt(username, password, rhosts[order[j']]))
        {
          if probe(kind.value, Attempt(username, password, rhosts[order[j]])) {
            assert rhosts[order[j]] in Hits(kind.value, username, password, HostSet(rhosts), probe);
            return Err(ErrorOf(kind.value));
          }
        }
        forall h | h in HostSet(rhosts) ensures !probe(kind.value, Attempt(username, password, h)) {
          var p :| 0 <= p < |rhosts| && rhosts[p] == h;
          assert IsCompletionOrder(order, |rhosts|);
          assert p in order;
          var j' :| 0 <= j' < |order| && order[j'] == p;
        }
      }
    }
    return Ok(map[]);
  }

  /**
   * `concurrent_login_attempts` with lines 118 and 123 keyed by the submitted
   * host: returns the results dict; the ghost `submitted` records, in
   * submission order, every call made through `pool.submit`.
   * `completions[i]` is the order in which the futures of credential `i`
   * complete.
   */
  method ConcurrentLoginAttempts(service: string, credentials: Dict, rhosts: seq<string>,
                                 probe: Probe, completions: seq<seq<nat>>)
    returns (resultsList: Report, ghost submitted: seq<Attempt>)
    requires credentials.Valid()
    requires |completions| == |credentials.keys|
    requires forall i :: 0 <= i < |completions| ==> IsCompletionOrder(completions[i], |rhosts|)
    ensures submitted == Submitted(service, credentials, rhosts)
    ensures resultsList == ExpectedReport(service, credentials, rhosts, probe)
  {
    var kind := ServiceOf(service);
    var keys, values := credentials.keys, credentials.values;
    resultsList, submitted := map[], [];
    for i := 0 to |keys|
      invariant kind.None? ==> resultsList == map[] && submitted == []
      invariant kind.Some? ==> resultsList == ReportFor(kind.value, keys[..i], values, rhosts, probe)
      invariant kind.Some? ==> submitted == AllAttempts(keys[..i], values, rhosts)
    {
      assert keys[..i + 1][..i] == keys[..i];
      var username := keys[i];
      var password := values[username];
      if kind.Some? {
        var batch := SubmitBatch(username, password, rhosts);
        submitted := submitted + batch;
        resultsList := CollectBatch(resultsList, kind.value, username, password, rhosts, completions[i], probe);
      }
    }
    assert keys[..|keys|] == keys;
  }

  /** Line 115: submits one probe per entry of the host list. */
  method SubmitBatch(username: string, password: string, rhosts: seq<string>) returns (batch: seq<Attempt>)
    ensures batch == Batch(username, password, rhosts)
  {
    batch := [];
    for j := 0 to |rhosts|
      invariant batch == Batch(username, password, rhosts[..j])
    {
      assert rhosts[..j + 1][..j] == rhosts[..j];
      batch := batch + [Attempt(username, password, rhosts[j])];
    }
    assert rhosts[..|rhosts|] == rhosts;
  }

  /**
   * Lines 116-118 for one batch: as the futures complete in `order`, each
   * success is stored under the host it was submitted for. The result is the
   * report with every success of the batch written over it.
   */
  method CollectBatch(resultsList: Report, kind: ServiceKind, username: string, password: string,
                      rhosts: seq<string>, order: seq<nat>, probe: Probe)
    returns (updated: Report)
    requires IsCompletionOrder(order, |rhosts|)
    ensures updated == Merge(resultsList, username, password, Hits(kind, username, password, HostSet(rhosts), probe))
  {
    updated := resultsList;
    for j := 0 to |order|
      invariant updated == Completed(resultsList, kind, username, password, rhosts, order[..j], probe)
    {
      assert order[..j + 1][..j] == order[..j];
      var ip := rhosts[order[j]];
      if probe(kind, Attempt(username, password, ip)) {
        updated := updated[ip := Login(username, password, true)];
      }
    }
    assert order[..|order|] == order;
    CompletedIsMerge(resultsList, kind, username, password, rhosts, order, probe);
    ReachedAll(rhosts, order);
  }

  /**
   * Whatever the completion order, one batch writes exactly its successes,
   * each keyed by its host, over the report it started from.
   */
  lemma {:induction false} CompletedIsMerge(report: Report, kind: ServiceKind, user: string, password: string,
                                            hosts: seq<string>, order: seq<nat>, probe: Probe)
    requires forall i :: 0 <= i < |order| ==> order[i] < |hosts|
    ensures Completed(report, kind, user, password, hosts, order, probe)
         == Merge(report, user, password, Hits(kind, user, password, Reached(hosts, order), probe))
  {
    if order != [] {
      var init := order[..|order| - 1];
      var ip := hosts[order[|order| - 1]];
      CompletedIsMerge(report, kind, user, password, hosts, init, probe);
      ReachedSnoc(hosts, order);
      HitsAdd(kind, user, password, Reached(hosts, init), ip, probe);
      MergeAdd(report, user, password, Hits(kind, user, password, Reached(hosts, init), probe), ip);
    }
  }

  lemma ReachedSnoc(hosts: seq<string>, order: seq<nat>)
    requires order != [] && order[|order| - 1] < |hosts|
    ensures Reached(hosts, order) == Reached(hosts, order[..|order| - 1]) + {hosts[order[|order| - 1]]}
  {
    var init := order[..|order| - 1];
    forall h | h in Reached(hosts, order) ensures h in Reached(hosts, init) + {hosts[order[|order| - 1]]} {
      var i :| i in order && i < |hosts| && hosts[i] == h;
      var p :| 0 <= p < |order| && order[p] == i;
      if p < |order| - 1 { assert init[p] == i; }
    }
    forall h | h in Reached(hosts, init) ensures h in Reached(hosts, order) {
      var i :| i in init && i < |hosts| && hosts[i] == h;
      var p :| 0 <= p < |init| && init[p] == i;
      assert order[p] == i;
    }
    assert order[|order| - 1] in order;
  }

  lemma HitsAdd(kind: ServiceKind, user: string, password: string, hosts: set<string>, ip: string, probe: Probe)
    ensures Hits(kind, user, password, hosts + {ip}, probe)
         == if probe(kind, Attempt(user, password, ip)) then Hits(kind, user, password, hosts, probe) + {ip}
            else Hits(kind, user, password, hosts, probe)
  {
  }

  lemma MergeAdd(report: Report, user: string, password: string, hits: set<string>, ip: string)
    ensures Merge(report, user, password, hits + {ip}) == Merge(report, user, password, hits)[ip := Login(user, password, true)]
  {
  }

  /** A completion order reaches every host of the list. */
  lemma ReachedAll(hosts: seq<string>, order: seq<nat>)
    requires IsCompletionOrder(order, |hosts|)
    ensures Reached(hosts, order) == HostSet(hosts)
  {
    forall h | h in HostSet(hosts) ensures h in Reached(hosts, order) {
      var p :| 0 <= p < |hosts| && hosts[p] == h;
      assert p in order;
    }
  }

  /**
   * Within one batch the completion order does not matter: every write in
   * it carries the same username and password.
   */
  lemma CompletionOrderIrrelevant(report: Report, kind: ServiceKind, user: string, password: string,
                                  hosts: seq<string>, order1: seq<nat>, order2: seq<nat>, probe: Probe)
    requires IsCompletionOrder(order1, |hosts|) && IsCompletionOrder(order2, |hosts|)
    ensures Completed(report, kind, user, password, hosts, order1, probe)
         == Completed(report, kind, user, password, hosts, order2, probe)
  {
    CompletedIsMerge(report, kind, user, password, hosts, order1, probe);
    CompletedIsMerge(report, kind, user, password, hosts, order2, probe);
    ReachedAll(hosts, order1);
    ReachedAll(hosts, order2);
  }

  /** Each batch holds one attempt per entry of the host list. */
  lemma {:induction false} BatchLength(user: string, password: string, hosts: seq<string>)
    ensures |Batch(user, password, hosts)| == |hosts|
  {
    if hosts != [] {
      BatchLength(user, password, hosts[..|hosts| - 1]);
    }
  }

  /** Every credential is tried against every entry of the host list. */
  lemma {:induction false} AllAttemptsLength(keys: seq<string>, values: map<string, string>, hosts: seq<string>)
    requires forall k :: k in keys ==> k in values
    ensures |AllAttempts(keys, values, hosts)| == |keys| * |hosts|
  {
    if keys != [] {
      var k := keys[|keys| - 1];
      var n := |keys| - 1;
      AllAttemptsLength(keys[..n], values, hosts);
      BatchLength(k, values[k], hosts);
      assert |keys| * |hosts| == n * |hosts| + |hosts| by {
        assert |keys| == n + 1;
      }
    }
  }

  /** A batch holds the credential once per occurrence of the host in the list. */
  lemma {:induction false} BatchMultiplicity(user: string, password: string, hosts: seq<string>, a: Attempt)
    ensures multiset(Batch(user, password, hosts))[a]
         == if a.user == user && a.password == password then multiset(hosts)[a.host] else 0
  {
    if hosts != [] {
      var init := hosts[..|hosts| - 1];
      BatchMultiplicity(user, password, init, a);
      assert hosts == init + [hosts[|hosts| - 1]];
    }
  }

  /**
   * Over distinct usernames, the attempt (u, p, h) is submitted exactly as
   * often as h occurs in the host list when u is a username whose password
   * is p, and never otherwise.
   */
  lemma {:induction false} AllAttemptsMultiplicity(keys: seq<string>, values: map<string, string>,
                                                   hosts: seq<string>, a: Attempt)
    requires forall k :: k in keys ==> k in values
    requires forall i, j :: 0 <= i < j < |keys| ==> keys[i] != keys[j]
    ensures multiset(AllAttempts(keys, values, hosts))[a]
         == if a.user in keys && values[a.user] == a.password then multiset(hosts)[a.host] else 0
  {
    if keys != [] {
      var init, k := keys[..|keys| - 1], keys[|keys| - 1];
      AllAttemptsMultiplicity(init, values, hosts, a);
      BatchMultiplicity(k, values[k], hosts, a);
      assert keys == init + [k];
      assert a.user in init ==> a.user != k;
    }
  }

  /**
   * For ssh or ftp (in any case), every credential of the dict is submitted
   * once per entry of the host list, duplicates included, and nothing else
   * is; any other service submits nothing.
   */
  lemma SubmittedAttempts(service: string, credentials: Dict, hosts: seq<string>, a: Attempt)
    requires credentials.Valid()
    ensures ServiceOf(service).None? ==> Submitted(service, credentials, hosts) == []
    ensures ServiceOf(service).Some? ==>
      && |Submitted(service, credentials, hosts)| == |credentials.keys| * |hosts|
      && multiset(Submitted(service, credentials, hosts))[a]
         == if a.user in credentials.values && credentials.values[a.user] == a.password
            then multiset(hosts)[a.host] else 0
  {
    if ServiceOf(service).Some? {
      AllAttemptsLength(credentials.keys, credentials.values, hosts);
      AllAttemptsMultiplicity(credentials.keys, credentials.values, hosts, a);
    }
  }

  /** A host is in the report exactly when it is listed and some credential succeeds on it. */
  lemma {:induction false} ReportHosts(kind: ServiceKind, keys: seq<string>, values: map<string, string>,
                                       hosts: seq<string>, probe: Probe, h: string)
    requires forall k :: k in keys ==> k in values
    ensures h in ReportFor(kind, keys, values, hosts, probe) <==>
      h in hosts && exists i :: 0 <= i < |keys| && probe(kind, Attempt(keys[i], values[keys[i]], h))
  {
    if keys != [] {
      var init, k := keys[..|keys| - 1], keys[|keys| - 1];
      ReportHosts(kind, init, values, hosts, probe, h);
      if h in hosts && probe(kind, Attempt(k, values[k], h)) {
        assert h in Hits(kind, k, values[k], HostSet(hosts), probe);
      }
      if exists i :: 0 <= i < |init| && probe(kind, Attempt(init[i], values[init[i]], h)) {
        var i :| 0 <= i < |init| && probe(kind, Attempt(init[i], values[init[i]], h));
        assert keys[i] == init[i];
      }
      if exists i :: 0 <= i < |keys| && probe(kind, Attempt(keys[i], values[keys[i]], h)) {
        var i :| 0 <= i < |keys| && probe(kind, Attempt(keys[i], values[keys[i]], h));
        if i < |init| { assert init[i] == keys[i]; }
      }
    }
  }

  /**
   * The record of a reported host is the last credential, in dict order,
   * that succeeds on it, with `login` true.
   */
  lemma {:induction false} ReportHoldsLastSuccess(kind: ServiceKind, keys: seq<string>, values: map<string, string>,
                                                  hosts: seq<string>, probe: Probe, h: string)
    requires forall k :: k in keys ==> k in values
    requires h in ReportFor(kind, keys, values, hosts, probe)
    ensures exists i ::
      && 0 <= i < |keys|
      && probe(kind, Attempt(keys[i], values[keys[i]], h))
      && ReportFor(kind, keys, values, hosts, probe)[h] == Login(keys[i], values[keys[i]], true)
      && (forall j :: i < j < |keys| ==> !probe(kind, Attempt(keys[j], values[keys[j]], h)))
  {
    var init, k := keys[..|keys| - 1], keys[|keys| - 1];
    var hits := Hits(kind, k, values[k], HostSet(hosts), probe);
    if h in hits {
      assert probe(kind, Attempt(keys[|keys| - 1], values[keys[|keys| - 1]], h));
    } else {
      ReportHosts(kind, keys, values, hosts, probe, h);
      ReportHoldsLastSuccess(kind, init, values, hosts, probe, h);
      var i :| 0 <= i < |init|
        && probe(kind, Attempt(init[i], values[init[i]], h))
        && ReportFor(kind, init, values, hosts, probe)[h] == Login(init[i], values[init[i]], true)
        && forall j :: i < j < |init| ==> !probe(kind, Attempt(init[j], values[init[j]], h));
      assert keys[i] == init[i];
      assert h in hosts && !probe(kind, Attempt(k, values[k], h));
      forall j | i < j < |keys| ensures !probe(kind, Attempt(keys[j], values[keys[j]], h)) {
        if j < |init| { assert keys[j] == init[j]; }
      }
    }
  }

  /** The report is empty exactly when no credential succeeds on any listed host. */
  lemma ReportEmptyIffNoSuccess(kind: ServiceKind, keys: seq<string>, values: map<string, string>,
                                hosts: seq<string>, probe: Probe)
    requires forall k :: k in keys ==> k in values
    ensures ReportFor(kind, keys, values, hosts, probe) == map[] <==> !AnySuccess(kind, keys, values, hosts, probe)
  {
    var report := ReportFor(kind, keys, values, hosts, probe);
    if AnySuccess(kind, keys, values, hosts, probe) {
      var i :| 0 <= i < |keys| && Hits(kind, keys[i], values[keys[i]], HostSet(hosts), probe) != {};
      var h :| h in Hits(kind, keys[i], values[keys[i]], HostSet(hosts), probe);
      ReportHosts(kind, keys, values, hosts, probe, h);
      assert h in report;
    }
    if report != map[] {
      var h :| h in report;
      ReportHosts(kind, keys, values, hosts, probe, h);
      var i :| 0 <= i < |keys| && probe(kind, Attempt(keys[i], values[keys[i]], h));
      assert h in Hits(kind, keys[i], values[keys[i]], HostSet(hosts), probe);
    }
  }

  /**
   * As written, the function raises exactly when the intended report would
   * be non-empty, and otherwise returns an empty dict: it can never return a
   * successful login.
   */
  lemma AsWrittenNeverReports(service: string, credentials: Dict, hosts: seq<string>, probe: Probe)
    requires credentials.Valid()
    ensures AsWrittenOutcome(service, credentials, hosts, probe).Ok? ==>
      AsWrittenOutcome(service, credentials, hosts, probe).value == map[]
    ensures AsWrittenOutcome(service, credentials, hosts, probe).Err? <==>
      ExpectedReport(service, credentials, hosts, probe) != map[]
    ensures ServiceOf(service).Some? && AsWrittenOutcome(service, credentials, hosts, probe).Err? ==>
      AsWrittenOutcome(service, credentials, hosts, probe).error == ErrorOf(ServiceOf(service).value)
  {
    if ServiceOf(service).Some? {
      ReportEmptyIffNoSuccess(ServiceOf(service).value, credentials.keys, credentials.values, hosts, probe);
    }
  }

  /**
   * One credential that logs in over "SSH" on the one listed host: the
   * function as written raises NameError, where the intended report holds
   * the login under that host.
   */
  lemma SingleSshLogin()
    ensures
      var credentials := Dict(["alice"], map["alice" := "secret1"]);
      var probe: Probe := (kind, a) => a == Attempt("alice", "secret1", "10.0.0.1");
      && AsWrittenOutcome("SSH", credentials, ["10.0.0.1"], probe) == Err(NameError)
      && ExpectedReport("SSH", credentials, ["10.0.0.1"], probe)
         == map["10.0.0.1" := Login("alice", "secret1", true)]
  {
    var credentials := Dict(["alice"], map["alice" := "secret1"]);
    var probe: Probe := (kind, a) => a == Attempt("alice", "secret1", "10.0.0.1");
    var hosts := ["10.0.0.1"];
    assert ServiceOf("SSH") == Some(Ssh);
    assert HostSet(hosts) == {"10.0.0.1"};
    var hits := Hits(Ssh, "alice", "secret1", HostSet(hosts), probe);
    assert "10.0.0.1" in hits;
    assert hits == {"10.0.0.1"};
    assert credentials.keys[0] == "alice" && credentials.values["alice"] == "secret1";
    assert Hits(Ssh, credentials.keys[0], credentials.values[credentials.keys[0]], HostSet(hosts), probe) != {};
    assert credentials.keys[..0] == [];
  }
}
