# ANScanner in Dafny

ANScanner is a small network scanner driven from the console. It reads a
target (an IP address, a host name, or an address prefix, with an optional
`:port` suffix). It resolves the target; when the name does not resolve it
falls back to sweeping the `/24` subnet given by the prefix. It runs an
`nmap` ping scan on every address. For each live host it runs an `nmap`
port scan of ports 1-1024 and an `nmap` OS detection. It then prints one
table row per host: the address, the open ports and the operating system.

All of the program's own logic is text processing on nmap's output. This
project models that logic and proves what it computes:

- `py_text.dfy` (module `PyText`) models the Python `str` built-ins the
  parsers use, on `seq<char>`:
  - `in` is `Contains`;
  - `split(c)` is `SplitOn`, which keeps empty fields;
  - `split()` is `Words`, which splits on whitespace runs and drops empty fields;
  - `strip()` is `Strip`;
  - `splitlines()` is `SplitLines`, with CPython's full set of line breaks and `\r\n` as one break;
  - `sep.join` is `JoinWith`;
  - `str(n)` is `NatToString`.
- `an_scanner.dfy` (module `AnScanner`) models `main.py`:
  - target normalisation and the subnet fallback;
  - the three parsers (live hosts, open ports, OS details);
  - the three scan wrappers;
  - the row built for each host;
  - the discovery loop and the whole run of `main`.

Where `main.py` loops and appends, the model is a method with a `while`
loop. That method is proved equal to a recursive specification function:
`CollectHosts`/`HostsOf`, `CollectPorts`/`PortsOf`,
`DisplayResults`/`HostRows` and `DiscoverHosts`/`LiveHosts`. The
properties the program relies on are then lemmas about those functions.
The early-return search of `parse_os_output` is the recursive function
`OsDetailsOf`.

The environment enters as two parameters:
- `run: seq<string> -> ProcessOutcome` stands for
  `subprocess.check_output(argv, universal_newlines=True)`. Given the
  argument vector, it yields the captured text, a non-zero exit status,
  or any other exception.
- `resolve: string -> ResolveOutcome` stands for `socket.gethostbyname`.
  It yields an address, `socket.gaierror`, or another exception. `main`
  does not catch the last one, so it comes out of `RunScan` as `Err`.

## Model

| member | source | states |
|---|---|---|
| PyText.JoinWith | main.py:108 | `sep.join(parts)`: nothing for no parts, the part itself for one, otherwise the first part, `sep`, and the join of the rest (definition) |
| PyText.Words | main.py:74 | `s.split()`: leading whitespace is skipped, then the leading non-whitespace run is a field and the rest is split the same way (definition) |
| PyText.Contains | main.py:51 | `pat in s` is true exactly when `pat` occurs in `s` at some index |
| PyText.SplitOn | main.py:52 | `s.split(c)` has at least one field, and no field contains `c` |
| PyText.SplitOnJoin | main.py:52 | joining the fields of `s.split(c)` with `c` gives back `s` |
| PyText.SplitOnFirst | main.py:25 | the first field is a prefix of `s`; when it is shorter than `s`, it is followed by `c` |
| PyText.SplitOnLast | main.py:52 | the last field is a suffix of `s`; when it is shorter than `s`, it is preceded by `c` |
| PyText.SplitOnNone | main.py:52 | a text without `c` splits into the single field `s` |
| PyText.SplitOnAppend | main.py:52 | splitting `a + c + b` gives the fields of `a` followed by the fields of `b` |
| PyText.JoinWithSnoc | main.py:108 | joining `parts + [x]` yields the join of `parts`, then `sep`, then `x` |
| PyText.JoinWithLast | main.py:108 | a join of several parts ends in `sep` followed by the last part |
| PyText.JoinWithEndsLast | main.py:108 | a non-empty join ends with its last part |
| PyText.WordLength | main.py:74 | the leading run of `s` is free of whitespace and is followed by whitespace or the end |
| PyText.WordsAreWords | main.py:74 | every field of `s.split()` is non-empty and free of whitespace |
| PyText.WordsKeepVisible | main.py:74 | the fields of `s.split()`, concatenated, are exactly the non-whitespace characters of `s` |
| PyText.WordsNonEmpty | main.py:74 | a text with a non-whitespace character has at least one field |
| PyText.WordsCons | main.py:74 | a field followed by whitespace or the end of the text is split off whole |
| PyText.WordsAfterWord | main.py:74 | a field followed by a whitespace run is split off whole |
| PyText.WordsSkipSpace | main.py:74 | leading whitespace does not change the fields |
| PyText.WordsOfRow | main.py:74 | three fields separated by whitespace runs are the first three fields of the text |
| PyText.TrimStart | main.py:95 | the result is a suffix of `s` that starts with a non-space, and everything dropped is whitespace |
| PyText.TrimEnd | main.py:95 | the result is a prefix of `s` that ends with a non-space, and everything dropped is whitespace |
| PyText.Strip | main.py:95 | `s.strip()` neither starts nor ends with whitespace, and is what remains of `s` after dropping whitespace at both ends |
| PyText.StripIdempotent | main.py:95 | stripping twice is the same as stripping once |
| PyText.StripKeepsOut | main.py:95 | a character absent from `s` is absent from `s.strip()` |
| PyText.SplitLines | main.py:50 | no line of `s.splitlines()` contains a line break |
| PyText.SplitLinesOneLine | main.py:50 | a non-empty text without a break is a single line, so an unterminated last line is kept |
| PyText.SplitLinesBreak | main.py:50 | a line ended by any single-character break is split off and the rest is split on its own; this covers every break except `\r` followed by `\n` |
| PyText.SplitLinesCrLf | main.py:50 | `\r\n` ends a line as one break and starts no empty line |
| PyText.SplitLinesRoundTrip | main.py:50 | break-free lines, each terminated by a newline, split back into the same lines |
| PyText.NatToString | main.py:32 | `str(n)` is a non-empty digit string, with a leading `0` only for zero |
| PyText.NatToStringRoundTrip | main.py:32 | reading `str(n)` back as a decimal gives `n` |
| PyText.NatToStringInjective | main.py:32 | different numbers have different decimal strings |
| AnScanner.DiscoveryCommand | main.py:37 | the ping-scan argument vector `nmap -sn <range>` (definition) |
| AnScanner.PortScanCommand | main.py:59 | the port-scan argument vector `nmap -p 1-1024 <ip>` (definition) |
| AnScanner.OsDetectionCommand | main.py:83 | the OS-detection argument vector `nmap -O <ip>` (definition) |
| AnScanner.StripPort | main.py:25 | the stripped target is a colon-free prefix of the input, cut at the first colon when there is one |
| AnScanner.SubnetFallback | main.py:32 | the fallback sweep has exactly 254 addresses |
| AnScanner.SubnetFallbackAddress | main.py:32 | address `k` is exactly `prefix + "." + str(k + 1)`, and its digits read back as `k + 1`, so the hosts run 1 to 254 in order |
| AnScanner.SubnetFallbackDistinct | main.py:32 | the fallback addresses are pairwise distinct |
| AnScanner.ResolveIpRange | main.py:23-32 | the stripped target is what gets resolved. A resolved name gives just its address. `gaierror` gives exactly the `/24` sweep over the stripped target: 254 addresses, all starting with the stripped target and a dot. Any other resolver exception is the only error |
| AnScanner.HostField | main.py:52 | the host token has no space and is a suffix of the line; when it is not the whole line, a space precedes it |
| AnScanner.HostFieldAfterSpace | main.py:52 | a line ending in a space and a space-free token yields that token. So a line `name (ip)` yields `(ip)` |
| AnScanner.HostFieldTrailingSpace | main.py:52 | a line that ends in a space yields the empty host |
| AnScanner.LineHosts | main.py:51-53 | a report line adds its host field, and any other line adds nothing (definition) |
| AnScanner.HostsOf | main.py:49-54 | the hosts of the lines, each line's contribution in line order (definition) |
| AnScanner.HostsOfAppend | main.py:49-54 | the hosts of two blocks of lines are the hosts of the first block, then of the second |
| AnScanner.HostsOfStep | main.py:50-53 | handling one more line appends that line's host, if any |
| AnScanner.HostsOfEmpty | main.py:49-54 | no host is reported exactly when no line contains "Nmap scan report for" |
| AnScanner.HostsOfNoSpace | main.py:52-53 | no reported host contains a space |
| AnScanner.ParseNmapOutput | main.py:47-54 | the hosts are those `HostsOf` gives for `output.splitlines()` |
| AnScanner.CollectHosts | main.py:49-54 | the loop yields one host per report line, in line order, and nothing for other lines |
| AnScanner.DiscoveredHosts | main.py:36-45 | a completed discovery run yields the hosts of its output's lines; a run that fails yields none |
| AnScanner.ScanNetwork | main.py:34-45 | the ping scan of the range is parsed when it completes. A non-zero exit or any other failure gives the empty list |
| AnScanner.TcpLineHasField | main.py:73-75 | a line containing "/tcp" has a first field, so `parts[0]` is always defined |
| AnScanner.PortField | main.py:75 | the port is the prefix of the first field up to its first "/", or the whole field. It has neither "/" nor whitespace |
| AnScanner.ServiceField | main.py:76 | the service is the third field when the line has more than two fields, and "unknown" otherwise. It is never empty and never contains whitespace |
| AnScanner.EntryFields | main.py:77 | for whitespace-free port and service, `f"{port} ({service})"` splits on its single space into the port and the parenthesised service, and ends in ")" |
| AnScanner.PortEntry | main.py:77 | `f"{port} ({service})"` built from the port field and the service field (definition) |
| AnScanner.PortEntryFields | main.py:77 | an entry splits on its single space into the port and the parenthesised service, and it ends in ")" |
| AnScanner.PortEntryOfRow | main.py:73-77 | an nmap row `<port>/tcp <state> <service> ...` yields `"<port> (<service>)"`, whatever the state column says |
| AnScanner.TcpField | main.py:75 | the field `<port>/tcp` is whitespace-free and splits on "/" to `<port>` first |
| AnScanner.LinePorts | main.py:73-77 | a line with both "/tcp" and "open" adds its entry, and any other line adds nothing (definition) |
| AnScanner.PortsOf | main.py:71-78 | the entries of the lines, each line's contribution in line order (definition) |
| AnScanner.PortsOfAppend | main.py:71-78 | the ports of two blocks of lines are the ports of the first block, then of the second |
| AnScanner.PortsOfStep | main.py:72-77 | handling one more line appends that line's entry, if any |
| AnScanner.PortsOfBound | main.py:72-77 | there are at most as many entries as lines |
| AnScanner.PortsOfEmpty | main.py:72-78 | no entry is emitted exactly when no line contains both "/tcp" and "open" |
| AnScanner.PortsOfClosed | main.py:77 | every entry ends in ")" |
| AnScanner.ParsePortOutput | main.py:69-78 | the entries are those `PortsOf` gives for `output.splitlines()` |
| AnScanner.CollectPorts | main.py:71-78 | the loop yields one entry per line with both "/tcp" and "open", in line order |
| AnScanner.OpenPorts | main.py:58-67 | a completed port scan yields the entries of its output's lines; a scan that fails yields none |
| AnScanner.PortScan | main.py:56-67 | `nmap -p 1-1024 <ip>` is parsed when it completes, and gives the empty list on any failure |
| AnScanner.OsField | main.py:95 | the OS text has no colon and no whitespace at either end |
| AnScanner.OsFieldAfterColon | main.py:95 | a line `<head>:<detail>` with a colon-free detail yields the detail, stripped |
| AnScanner.OsFieldNoColon | main.py:95 | a line without a colon yields the whole line, stripped |
| AnScanner.OsDetailsOf | main.py:93-96 | with no "OS details" line the answer is "Unknown OS"; otherwise it is the field of the first such line |
| AnScanner.OsDetailsIgnoresLater | main.py:93-95 | once an "OS details" line has been seen, later lines do not change the answer |
| AnScanner.FirstOsLine | main.py:93-94 | given any "OS details" line, there is a first one at or before it |
| AnScanner.ParseOsOutput | main.py:91-96 | `parse_os_output` is the search `OsDetailsOf` over `output.splitlines()` (definition) |
| AnScanner.OsDetection | main.py:80-89 | a completed run gives the parsed OS text. A non-zero exit gives "Unknown OS". Any other failure gives "Error detecting OS: " followed by the message |
| AnScanner.MapEach | main.py:105-108 | one result per element, the i-th computed from the i-th element |
| AnScanner.MapEachStep | main.py:105-108 | handling one more element appends its result |
| AnScanner.GatherAppend | main.py:128-129 | gathering over two blocks concatenates the two gatherings |
| AnScanner.GatherStep | main.py:128-129 | handling one more element extends the list with that element's list |
| AnScanner.GatherOrigin | main.py:128-129 | every gathered item comes from the list of some element |
| AnScanner.PortsCell | main.py:108 | the ports cell: "None" for an empty list, otherwise the entries joined with ", " (definition) |
| AnScanner.PortsCellNone | main.py:108 | for entries in the parser's form, the cell is "None" exactly when the list is empty; otherwise it ends with the last entry |
| AnScanner.OpenPortsCell | main.py:106-108 | the ports cell of a host is "None" exactly when its port scan failed or reported no open-tcp line |
| AnScanner.HostRow | main.py:106-108 | a host's row: the host, the ports cell of its port scan and the text of its OS detection (definition) |
| AnScanner.ScanHost | main.py:106-108 | a host's row holds the host, the ports cell of its port scan and the text of its OS detection |
| AnScanner.HostRows | main.py:105-108 | one row per host, the i-th for the i-th host |
| AnScanner.DisplayResults | main.py:98-110 | the loop builds exactly the rows of the hosts, in order |
| AnScanner.LiveHosts | main.py:124-130 | the live hosts: the discovery results of the addresses, concatenated in address order (definition) |
| AnScanner.LiveHostsStep | main.py:128-129 | scanning one more address appends the hosts its discovery run reports |
| AnScanner.LiveHostsOrigin | main.py:128-129 | every live host was reported by the discovery run of some address |
| AnScanner.DiscoverHosts | main.py:124-130 | the live-host list is the concatenation, in address order, of the discovery results. The progress counter advances once per address |
| AnScanner.Summary | main.py:132-136 | "Active hosts found: " followed by the count when there are live hosts, otherwise "No active hosts found." (definition) |
| AnScanner.RunScan | main.py:117-136 | an unhandled resolver exception ends the run. Otherwise the summary is "Active hosts found: n" or "No active hosts found.", and the rows are those of the live hosts in discovery order |

## Left out

- Process execution: nmap is not run. `run` is a parameter that maps an argument vector to an outcome. Each argument vector is assumed to give the same outcome each time it is run.
- Decoding of the captured bytes: `universal_newlines=True` turns bytes into text with the locale's encoding and rewrites `\r\n` and `\r` as `\n`. `Completed` carries the text after that rewriting. `splitlines` treats all three endings as breaks, so the lines are unaffected.
- Exception texts: the text of `CalledProcessError` and of other exceptions is not modelled. `LaunchFailure` and `ResolverException` carry an abstract message.
- Name resolution: `socket.gethostbyname` is the parameter `resolve`.
- Console output: the banner (`print_banner`, pyfiglet), the coloured messages, the progress bar and the table rendering of `rich` are left out. What they show is kept: the summary line, the rows in order, and the progress count.
- Logging: `logging.basicConfig` only opens a log file; nothing is logged.
- Threads: `threading` and the global `scan_results` are unused, and `scan_worker` only calls `scan_network`. The model has no concurrency.
- The prompt: `console.input` becomes the `target` parameter of `RunScan`.
- AnScanner.PortsCellNone: assumes every entry ends in ")". The source's "None" exactly when empty has no such assumption. Without it, a one-entry list `["None"]` would also print "None". `PortsOfClosed` shows parser output always meets the assumption, and `OpenPortsCell` states the unconditional fact for real scans.
- Integer width: Python integers are unbounded, so nothing is lost by modelling them as `nat`.
