# brutus.py login brute forcer, modelled in Dafny

`brutus.py` reads a file of target hosts and a file of `username password`
lines, then tries every credential against every host over SSH or FTP with a
process pool, and collects the logins that succeed. This project models its
three core functions:

- `parse_rhosts_file` (module `Rhosts`, file `rhosts.dfy`): each line loses
  its leading and trailing `'\n'` characters (`line.strip("\n")`), is kept
  when it parses as an IP address and otherwise produces a warning and is
  skipped. The address parser (`ipaddress.ip_address`) is a parameter
  `isIp`. The method returns the kept hosts and the warned lines.
- `format_credentials` (module `Credentials`, file `credentials.dfy`): each
  line is stripped of `'\n'`, split on single spaces
  (`str.split(" ")`), and `credentials[creds[0]] = creds[1]` is run. The
  Python dict is a `Dict` of an insertion-ordered key sequence and a map; a
  line with no space raises `IndexError`, modelled as an `Err` result naming
  the line.
- `concurrent_login_attempts` (module `LoginAttempts`, file
  `login_attempts.dfy`): for every credential in dict order, one probe per
  entry of the host list is submitted (`ssh_test` or `ftp_test`, chosen by
  `service.lower()`), and the futures complete in an order the pool picks.
  The probes are a parameter `probe`, and the completion order of each batch
  is a parameter `completions` that may be any permutation of the batch.
  Both the function as written (which raises on the first success) and the
  evidently intended function (which stores the success under its host) are
  modelled; see "## Findings".

`PyStr` (`pystr.dfy`) holds the Python string operations used:
`str.strip("\n")`, `str.split(c)` with its inverse `join`, and ASCII
`str.lower()`. `Results` (`results.dfy`) holds `Option` and `Result`.

Behaviour of the code that the model keeps:

- a host listed twice stays in the host list twice and is probed twice;
- a credential line is split on every single space: two spaces give an
  empty field, fields after the second are ignored, and a line with no space
  (a blank line too) aborts the whole parse;
- a service other than ssh or ftp submits nothing and yields an empty dict;
- credentials are the outer loop, in dict order, and hosts the inner loop;
- a host maps to one login record, the last successful credential in dict
  order.

## Model

| member | source | states |
|---|---|---|
| Rhosts.ParseRhostsFile | brutus.py:21-40 | the loop returns exactly the stripped lines that parse as addresses, in file order, and warns for exactly the others, in file order; it has no failure path, so an invalid line never aborts the parse |
| Rhosts.ValidHostsAppend | brutus.py:31-35 | filtering a concatenation of files is the concatenation of the filtered parts: the input order is kept |
| Rhosts.ValidHostsSingle | brutus.py:32-37 | a single line yields its stripped text when it is an address and nothing otherwise |
| Rhosts.HostsPartition | brutus.py:31-38 | every line is either kept or warned about, never both: the two outputs together are a permutation of the stripped lines, and at most as many hosts as lines come out |
| Rhosts.ValidHostsMultiplicity | brutus.py:32-35 | an address occurs in the host list exactly as often as it occurs among the stripped lines (duplicates are kept); a non-address never occurs |
| Rhosts.ValidHostsMembers | brutus.py:32-35 | a string is a host exactly when it is an address and is the stripped form of some input line |
| PyStr.LeadingNewlinesRun | brutus.py:32 | the prefix removed by `strip("\n")` is all newlines and is maximal |
| PyStr.TrailingStartRun | brutus.py:32 | the suffix removed by `strip("\n")` is all newlines and is maximal |
| PyStr.StripNewlinesSlice | brutus.py:32 | the stripped line is a slice of the line with only newlines cut off either side, and it neither starts nor ends with a newline |
| PyStr.StripNewlinesKeeps | brutus.py:32 | stripping newlines neither adds nor removes any other character |
| PyStr.StripNewlinesNoop | brutus.py:32 | a line without a newline is left unchanged |
| PyStr.SplitFields | brutus.py:53 | no field of `split(c)` contains `c`, joining the fields with `c` gives back the string, and there is a single field exactly when `c` does not occur |
| PyStr.SplitFirstField | brutus.py:53 | splitting at the first separator gives the text before it followed by the split of the rest |
| PyStr.SplitNoSeparator | brutus.py:53 | a string without the separator splits into itself alone |
| PyStr.SplitJoin | brutus.py:53 | splitting the join of separator-free fields gives back those fields |
| Credentials.Dict.Put | brutus.py:54 | dict assignment keeps the dict well formed, sets the value, keeps an existing key in its place and appends a new key at the end |
| Credentials.InsertRows | brutus.py:52-54 | the parse either yields a well-formed dict with no more keys than lines, or fails at a line that has fewer than two fields |
| Credentials.FormatCredentials | brutus.py:42-56 | the loop computes exactly the specified parse of the lines, including the `IndexError` at the first line without a space |
| Credentials.ErrorPersists | brutus.py:52-54 | once a line has raised, later lines do not change the outcome |
| Credentials.FailsAtFirstRowWithoutPassword | brutus.py:52-54 | the parse fails exactly when some line has fewer than two fields, and then at the first such line |
| Credentials.ParsedKeySet | brutus.py:52-54 | on success every line had two fields, and the keys are exactly the usernames of the lines |
| Credentials.ParsedKeyOrder | brutus.py:54 | the keys are ordered by the first line each username appears on |
| Credentials.LastPasswordWins | brutus.py:54 | a repeated username maps to the password of its last line |
| Credentials.HasPasswordIffSpace | brutus.py:53-54 | a line has a password field exactly when it contains a space, so a line with no space (a blank line included) raises |
| Credentials.CredentialLineShape | brutus.py:53 | for a line with a space, username and password hold no space and the stripped line is username, space, password, then nothing or text starting with a space that is ignored |
| Credentials.DoubleSpaceGivesEmptyPassword | brutus.py:53 | `"alice  pw"` splits into `alice`, an empty password and `pw` |
| Credentials.InsertRowsSkipping | brutus.py:52-54 | the corrected parse that skips lines without a password always yields a well-formed dict with no more keys than lines |
| Credentials.WithPassword | brutus.py:52-54 | the rows kept by the corrected parse are no more than the input rows and each has a password |
| Credentials.SkippingParseIsParseOfPasswordRows | brutus.py:52-54 | the corrected parse is the original parse of the rows that have a password, so key order by first occurrence and last password wins hold for it too |
| Credentials.SkippingParse | brutus.py:52-54 | the corrected parse agrees with the original whenever the original succeeds, and its keys are exactly the usernames of the lines that have a password |
| Credentials.BlankLineAbortsParse | brutus.py:53-54 | a trailing blank line makes the original raise at that line, while the corrected parse keeps the credential before it |
| LoginAttempts.ServiceOf | brutus.py:114-119 | the ssh branch is taken exactly for the three letters s, s, h in any case, the ftp branch exactly for f, t, p in any case |
| LoginAttempts.LowerThreeLetters | brutus.py:114-119 | `service.lower()` equals `"ssh"` or `"ftp"` exactly for those letters in any case |
| LoginAttempts.SubmitBatch | brutus.py:115 | one attempt is submitted per entry of the host list, in list order, all with the current credential |
| LoginAttempts.CollectBatch | brutus.py:116-118 | whatever the completion order, the batch writes a login record for exactly the hosts whose probe succeeded, over the report it started from |
| LoginAttempts.CompletedIsMerge | brutus.py:116-118 | writing the successes of a batch in any completion order gives the report with exactly the completed successes written over it |
| LoginAttempts.ReachedAll | brutus.py:116 | a completion order of a batch yields a future for every host of the list |
| LoginAttempts.CompletionOrderIrrelevant | brutus.py:116-118 | two completion orders of the same batch give the same report |
| LoginAttempts.ConcurrentLoginAttempts | brutus.py:102-128 | corrected function: the attempts submitted are every credential against the host list in dict order (none for another service), and the result is the specified report, for any completion orders |
| LoginAttempts.ConcurrentLoginAttemptsAsWritten | brutus.py:102-128 | function as written: for any completion orders it raises the branch's error exactly when some credential succeeds on some host, and otherwise returns the empty dict |
| LoginAttempts.BatchLength | brutus.py:115 | a batch has one attempt per host entry |
| LoginAttempts.BatchMultiplicity | brutus.py:115 | a batch holds an attempt as often as its host is listed, and only with the batch's credential |
| LoginAttempts.AllAttemptsLength | brutus.py:112-115 | number of credentials times number of host entries attempts are submitted |
| LoginAttempts.AllAttemptsMultiplicity | brutus.py:112-115 | an attempt is submitted as often as its host is listed when its username is a key with that password, and never otherwise |
| LoginAttempts.SubmittedAttempts | brutus.py:112-120 | for ssh or ftp every dict credential is submitted once per host entry, duplicates included, and nothing else; another service submits nothing |
| LoginAttempts.ReportHosts | brutus.py:112-118 | a host is in the report exactly when it is listed and some credential's probe succeeds on it |
| LoginAttempts.ReportHoldsLastSuccess | brutus.py:112-118 | a reported host holds the last credential in dict order that succeeded on it, with `login` true |
| LoginAttempts.ReportEmptyIffNoSuccess | brutus.py:113-128 | the report is empty exactly when no probe succeeds |
| LoginAttempts.AsWrittenNeverReports | brutus.py:118-123 | as written the function never returns a login: it returns an empty dict, and raises NameError (ssh) or AttributeError (ftp) exactly when the intended report is non-empty |
| LoginAttempts.SingleSshLogin | brutus.py:114-118 | one successful SSH login: as written NameError, intended a report with that host's record |

## Left out

- File I/O: both parsers take the file's lines as a sequence of strings; opening the files, and the `print` calls with their message texts, are not modelled (a warning is the skipped line itself).
- `ssh_test` and `ftp_test` (brutus.py:58-100) talk to the network through paramiko; they catch every exception, so they are the total parameter `probe`. `ftp_test` also reads the undefined names `source` and `dest`, so as written it always returns False; the model keeps it abstract.
- `ipaddress.ip_address` is the parameter `isIp`: which strings are IPv4 or IPv6 literals is not modelled.
- The process pool (`max_workers=50`), real concurrency and per-probe timeouts: batches run one after another and each batch's completion order is an input.
- `str(ip)` on line 115 is the identity, since the hosts are already strings.
- `docopt` argument parsing and the `__main__` block, which only wire files to the three functions.
- Lower: `str.lower()` is modelled for ASCII letters only; no other character lower-cases to a letter of "ssh" or "ftp", so the service comparison is exact.
- ConcurrentLoginAttempts: the report is a map, so the insertion order of its keys (which follows completion order) is not modelled; only its contents are.
- ConcurrentLoginAttemptsAsWritten: the attempts submitted before the exception, and which success in completion order raises, are not modelled; only whether and what it raises.

## Findings

| source | as written | input that shows it | evidently intended | confidence | as-written member | corrected member |
|---|---|---|---|---|---|---|
| brutus.py:118 | `results_list[ip]` reads `ip`, which is bound only inside the comprehension on line 115, so the first successful SSH login raises NameError | service "SSH", one host "10.0.0.1", credential alice/secret1 that logs in | store the record under the host the future was submitted for | high, not executed | LoginAttempts.ConcurrentLoginAttemptsAsWritten, LoginAttempts.SingleSshLogin | LoginAttempts.ConcurrentLoginAttempts |
| brutus.py:123 | `results_list.append(...)` is called on a dict, so the first successful FTP login raises AttributeError; the error is latent, because `ftp_test` reads the undefined names `source` and `dest` inside its `try` (brutus.py:96) and so always returns False, and it shows only once `ftp_test` can return True | service "ftp" with an `ftp_test` that returns True for some host and credential (not possible with `ftp_test` as written) | one reading: store the record under its host as the ssh branch does; the `ftp_test` docstring ("True ... and the server ip") suggests a list of results as another | medium, not executed | LoginAttempts.ConcurrentLoginAttemptsAsWritten, LoginAttempts.AsWrittenNeverReports | LoginAttempts.ConcurrentLoginAttempts |
| brutus.py:53-54 | `creds[1]` on a line without a space raises IndexError and aborts the whole parse, including for a trailing blank line | lines `"alice secret1\n"`, `"\n"` | skip a line without a password | medium, not executed | Credentials.FormatCredentials, Credentials.BlankLineAbortsParse | Credentials.InsertRowsSkipping, Credentials.SkippingParse, Credentials.SkippingParseIsParseOfPasswordRows |
