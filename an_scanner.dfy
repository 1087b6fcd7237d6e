/** The scanner's own logic (main.py): normalising the target, the `/24`
    fallback, reading the three kinds of nmap output, building the result
    rows and the sequential discovery loop.  nmap and the resolver are not
    run: `run` stands for what `subprocess.check_output(argv)` does with an
    argument vector and `resolve` for `socket.gethostbyname`. */
module AnScanner {
  import opened PyText

  // ---------------------------------------------------------------------
  // The environment
  // ---------------------------------------------------------------------

  /** What `subprocess.check_output(argv, universal_newlines=True)` does. */
  datatype ProcessOutcome =
    | Completed(output: string)              // exit status 0: the captured text
    | CalledProcessError(returnCode: int)    // non-zero exit status
    | LaunchFailure(message: string)         // any other exception, e.g. nmap missing

  /** What `socket.gethostbyname(name)` does. */
  datatype ResolveOutcome =
    | Resolved(address: string)              // the resolved address
    | GaiError                               // socket.gaierror: name not resolvable
    | ResolverException(message: string)     // any other exception; it is not caught

  datatype Result<T> = Ok(value: T) | Err(message: string)

  /** One row of the "Active Hosts" table. */
  datatype Row = Row(ip: string, ports: string, os: string)

  /** What a completed run prints: the summary line and the table rows. */
  datatype Report = Report(summary: string, rows: seq<Row>)

  function DiscoveryCommand(ipRange: string): seq<string> {
    ["nmap", "-sn", ipRange]
  }

  function PortScanCommand(ip: string): seq<string> {
    ["nmap", "-p", "1-1024", ip]
  }

  function OsDetectionCommand(ip: string): seq<string> {
    ["nmap", "-O", ip]
  }

  // ---------------------------------------------------------------------
  // Target resolution (resolve_ip_range)
  // ---------------------------------------------------------------------

  /** `input_range.split(':')[0]`: the target without a `:port` suffix,
      i.e. the text before its first colon. */
  function StripPort(target: string): (name: string)
    ensures name <= target && ':' !in name
    ensures |name| < |target| ==> target[|name|] == ':'
  {
    SplitOnFirst(target, ':');
    SplitOn(target, ':')[0]
  }

  const SubnetHosts := 254

  /** The `/24` sweep `[f"{prefix}.{i}" for i in range(1, 255)]`. */
  function SubnetFallback(prefix: string): (addresses: seq<string>)
    ensures |addresses| == SubnetHosts
  {
    seq(SubnetHosts, k requires 0 <= k < SubnetHosts => prefix + "." + NatToString(k + 1))
  }

  /** The fallback address at position `k` is the prefix, a dot, and
      `str(k + 1)`, whose decimal value is `k + 1`; so the host numbers run
      1 to 254 in ascending order. */
  lemma SubnetFallbackAddress(prefix: string, k: nat)
    requires k < SubnetHosts
    ensures SubnetFallback(prefix)[k] == prefix + "." + NatToString(k + 1)
    ensures var a := SubnetFallback(prefix)[k];
            var digits := a[|prefix| + 1..];
            prefix + "." <= a && |prefix| + 1 < |a| && AllDigits(digits) && DecimalValue(digits) == k + 1
  {
    var a := SubnetFallback(prefix)[k];
    assert a[|prefix| + 1..] == NatToString(k + 1);
    NatToStringRoundTrip(k + 1);
  }

  /** The 254 fallback addresses are pairwise distinct. */
  lemma SubnetFallbackDistinct(prefix: string, j: nat, k: nat)
    requires j < k < SubnetHosts
    ensures SubnetFallback(prefix)[j] != SubnetFallback(prefix)[k]
  {
    var a, b := SubnetFallback(prefix)[j], SubnetFallback(prefix)[k];
    if a == b {
      assert a[|prefix| + 1..] == NatToString(j + 1);
      assert b[|prefix| + 1..] == NatToString(k + 1);
      NatToStringInjective(j + 1, k + 1);
    }
  }

  /** resolve_ip_range: resolution is tried on the target without its port;
      a resolved name gives that one address, an unresolvable one the `/24`
      sweep over the stripped text, and any other resolver exception escapes. */
  function ResolveIpRange(target: string, resolve: string -> ResolveOutcome): (r: Result<seq<string>>)
    ensures r.Err? <==> resolve(StripPort(target)).ResolverException?
    ensures resolve(StripPort(target)).Resolved? ==> r == Ok([resolve(StripPort(target)).address])
    ensures resolve(StripPort(target)).GaiError? ==>
              r == Ok(SubnetFallback(StripPort(target))) && |r.value| == SubnetHosts &&
              forall a <- r.value :: StripPort(target) + "." <= a
  {
    var name := StripPort(target);
    match resolve(name)
    case Resolved(address) => Ok([address])
    case GaiError => Ok(SubnetFallback(name))
    case ResolverException(message) => Err(message)
  }

  // ---------------------------------------------------------------------
  // Live hosts (parse_nmap_output, scan_network)
  // ---------------------------------------------------------------------

  const ReportMarker := "Nmap scan report for"

  predicate IsReportLine(line: string) {
    Contains(line, ReportMarker)
  }

  /** `line.split(" ")[-1]`: the text after the last single space of the
      line (all of it when it has no space); empty when the line ends in a
      space. */
  function HostField(line: string): (host: string)
    ensures ' ' !in host && EndsWith(line, host)
    ensures |host| < |line| ==> line[|line| - |host| - 1] == ' '
  {
    SplitOnLast(line, ' ');
    var parts := SplitOn(line, ' ');
    parts[|parts| - 1]
  }

  /** A line that ends in " " followed by a space-free `token` yields `token`. */
  lemma HostFieldAfterSpace(head: string, token: string)
    requires ' ' !in token
    ensures HostField(head + " " + token) == token
  {
    var line := head + " " + token;
    SplitOnAppend(head, ' ', token);
    SplitOnNone(token, ' ');
  }

  /** A line that ends in a space yields the empty host. */
  lemma HostFieldTrailingSpace(line: string)
    requires line != [] && line[|line| - 1] == ' '
    ensures HostField(line) == ""
  {
    assert line == line[..|line| - 1] + " " + "";
    HostFieldAfterSpace(line[..|line| - 1], "");
  }

  /** What one line adds to the host list. */
  function LineHosts(line: string): seq<string> {
    if IsReportLine(line) then [HostField(line)] else []
  }

  /** The host list of parse_nmap_output: one entry per report line, in line
      order, nothing for other lines. */
  function HostsOf(lines: seq<string>): seq<string>
    decreases |lines|
  {
    if lines == [] then []
    else LineHosts(lines[0]) + HostsOf(lines[1..])
  }

  lemma {:induction false} HostsOfAppend(a: seq<string>, b: seq<string>)
    ensures HostsOf(a + b) == HostsOf(a) + HostsOf(b)
    decreases |a|
  {
    if a == [] {
      assert a + b == b;
    } else {
      assert (a + b)[1..] == a[1..] + b;
      HostsOfAppend(a[1..], b);
    }
  }

  lemma HostsOfLine(line: string)
    ensures HostsOf([line]) == LineHosts(line)
  {
    assert [line][1..] == [];
  }

  lemma HostsOfStep(lines: seq<string>, i: nat)
    requires i < |lines|
    ensures HostsOf(lines[..i + 1]) == HostsOf(lines[..i]) + LineHosts(lines[i])
  {
    assert lines[..i + 1] == lines[..i] + [lines[i]];
    HostsOfAppend(lines[..i], [lines[i]]);
    HostsOfLine(lines[i]);
  }

  /** No host is reported exactly when no line is a report line. */
  lemma {:induction false} HostsOfEmpty(lines: seq<string>)
    ensures HostsOf(lines) == [] <==> forall k :: 0 <= k < |lines| ==> !IsReportLine(lines[k])
    decreases |lines|
  {
    if lines != [] {
      HostsOfEmpty(lines[1..]);
      assert forall k :: 1 <= k < |lines| ==> lines[k] == lines[1..][k - 1];
    }
  }

  /** Every reported host is free of spaces. */
  lemma {:induction false} HostsOfNoSpace(lines: seq<string>)
    ensures forall h <- HostsOf(lines) :: ' ' !in h
    decreases |lines|
  {
    if lines != [] {
      HostsOfNoSpace(lines[1..]);
    }
  }

  /** parse_nmap_output: the loop over the lines of the output. */
  method ParseNmapOutput(output: string) returns (hosts: seq<string>)
    ensures hosts == HostsOf(SplitLines(output))
  {
    hosts := CollectHosts(SplitLines(output));
  }

  /** The body of parse_nmap_output's loop, over the lines of the output:
      append the last space-separated token of every report line. */
  method CollectHosts(lines: seq<string>) returns (hosts: seq<string>)
    ensures hosts == HostsOf(lines)
  {
    hosts := [];
    var i := 0;
    while i < |lines|
      invariant 0 <= i <= |lines|
      invariant hosts == HostsOf(lines[..i])
    {
      var line := lines[i];
      if Contains(line, ReportMarker) {
        hosts := hosts + [HostField(line)];
      }
      HostsOfStep(lines, i);
      i := i + 1;
    }
    assert lines[..i] == lines;
  }

  /** The hosts that one discovery run yields: a failed run yields none. */
  function DiscoveredHosts(outcome: ProcessOutcome): (hosts: seq<string>)
    ensures outcome.Completed? ==> hosts == HostsOf(SplitLines(outcome.output))
    ensures !outcome.Completed? ==> hosts == []
  {
    match outcome
    case Completed(text) => HostsOf(SplitLines(text))
    case _ => []
  }

  /** scan_network: `nmap -sn <ipRange>`, then parse_nmap_output. */
  method ScanNetwork(run: seq<string> -> ProcessOutcome, ipRange: string) returns (hosts: seq<string>)
    ensures hosts == DiscoveredHosts(run(DiscoveryCommand(ipRange)))
  {
    var outcome := run(DiscoveryCommand(ipRange));
    match outcome {
      case Completed(text) =>
        hosts := ParseNmapOutput(text);
      case CalledProcessError(_) =>
        hosts := [];
      case LaunchFailure(_) =>
        hosts := [];
    }
  }

  // ---------------------------------------------------------------------
  // Open ports (parse_port_output, port_scan)
  // ---------------------------------------------------------------------

  const TcpMarker := "/tcp"
  const OpenMarker := "open"
  const UnknownService := "unknown"

  predicate IsOpenTcpLine(line: string) {
    Contains(line, TcpMarker) && Contains(line, OpenMarker)
  }

  /** A line that contains "/tcp" has a whitespace-separated field, so
      `line.split()[0]` never fails. */
  lemma TcpLineHasField(line: string)
    requires Contains(line, TcpMarker)
    ensures Words(line) != []
  {
    var i: nat :| OccursAt(line, TcpMarker, i);
    assert line[i] == line[i..i + |TcpMarker|][0] == '/';
    WordsNonEmpty(line, i);
  }

  /** `parts[0].split("/")[0]`: the first field of the line up to its first
      "/"; the whole field when it has none. */
  function PortField(line: string): (port: string)
    requires Contains(line, TcpMarker)
    ensures Words(line) != []
    ensures port <= Words(line)[0] && '/' !in port && NoSpace(port)
    ensures |port| < |Words(line)[0]| ==> Words(line)[0][|port|] == '/'
  {
    TcpLineHasField(line);
    WordsAreWords(line);
    var first := Words(line)[0];
    SplitOnFirst(first, '/');
    var port := SplitOn(first, '/')[0];
    assert forall k :: 0 <= k < |port| ==> port[k] == first[k];
    port
  }

  /** `parts[2] if len(parts) > 2 else "unknown"`: never empty, never
      containing whitespace. */
  function ServiceField(line: string): (service: string)
    ensures service != [] && NoSpace(service)
    ensures |Words(line)| > 2 ==> service == Words(line)[2]
    ensures |Words(line)| <= 2 ==> service == UnknownService
  {
    var parts := Words(line);
    WordsAreWords(line);
    if |parts| > 2 then parts[2] else UnknownService
  }

  /** `f"{port} ({service})"`. */
  function PortEntry(line: string): string
    requires Contains(line, TcpMarker)
  {
    PortField(line) + " (" + ServiceField(line) + ")"
  }

  /** An entry splits on its single space back into the port and the
      parenthesised service, and it ends in ")". */
  lemma PortEntryFields(line: string)
    requires Contains(line, TcpMarker)
    ensures SplitOn(PortEntry(line), ' ') == [PortField(line), "(" + ServiceField(line) + ")"]
    ensures EndsWith(PortEntry(line), ")")
  {
    EntryFields(PortField(line), ServiceField(line));
  }

  /** `f"{port} ({service})"` for whitespace-free `port` and `service`. */
  lemma EntryFields(port: string, service: string)
    requires NoSpace(port) && NoSpace(service)
    ensures SplitOn(port + " (" + service + ")", ' ') == [port, "(" + service + ")"]
    ensures EndsWith(port + " (" + service + ")", ")")
  {
    var inner := "(" + service + ")";
    assert port + " (" + service + ")" == port + [' '] + inner;
    NoSpaceHasNoBlank(port);
    NoSpaceHasNoBlank(service);
    assert ' ' !in inner by {
      assert forall k :: 0 <= k < |inner| ==> inner[k] == '(' || inner[k] == ')' || inner[k] in service;
    }
    SplitOnAppend(port, ' ', inner);
    SplitOnNone(port, ' ');
    SplitOnNone(inner, ' ');
  }

  /** What one line adds to the port list. */
  function LinePorts(line: string): seq<string> {
    if IsOpenTcpLine(line) then [PortEntry(line)] else []
  }

  /** A port-table row of nmap, `<port>/tcp <state> <service> ...`, yields
      `"<port> (<service>)"`, whatever the state column says. */
  lemma PortEntryOfRow(port: string, gap1: string, state: string, gap2: string, service: string, rest: string)
    requires '/' !in port && NoSpace(port)
    requires gap1 != [] && AllSpace(gap1) && gap2 != [] && AllSpace(gap2)
    requires state != [] && NoSpace(state) && service != [] && NoSpace(service)
    requires rest == [] || IsSpace(rest[0])
    ensures var line := port + TcpMarker + gap1 + (state + gap2 + (service + rest));
            Contains(line, TcpMarker) && PortEntry(line) == port + " (" + service + ")"
  {
    var first := port + TcpMarker;
    var line := first + gap1 + (state + gap2 + (service + rest));
    TcpField(port);
    assert OccursAt(line, TcpMarker, |port|) by {
      assert line[..|first|] == first;
    }
    WordsOfRow(first, gap1, state, gap2, service, rest);
    var parts := Words(line);
    assert |parts| > 2 && parts[0] == first && parts[2] == service;
    assert PortField(line) == port;
    assert ServiceField(line) == service;
  }

  /** The first field `<port>/tcp` has no whitespace and splits on "/" to `port` first. */
  lemma TcpField(port: string)
    requires '/' !in port && NoSpace(port)
    ensures NoSpace(port + TcpMarker) && port + TcpMarker != []
    ensures SplitOn(port + TcpMarker, '/')[0] == port
  {
    var first := port + TcpMarker;
    assert NoSpace(TcpMarker);
    assert forall k :: |port| <= k < |first| ==> first[k] == TcpMarker[k - |port|];
    assert first == port + ['/'] + "tcp";
    SplitOnAppend(port, '/', "tcp");
    SplitOnNone(port, '/');
  }

  /** The port list of parse_port_output: one entry per line that contains
      both "/tcp" and "open", in line order. */
  function PortsOf(lines: seq<string>): seq<string>
    decreases |lines|
  {
    if lines == [] then []
    else LinePorts(lines[0]) + PortsOf(lines[1..])
  }

  lemma {:induction false} PortsOfAppend(a: seq<string>, b: seq<string>)
    ensures PortsOf(a + b) == PortsOf(a) + PortsOf(b)
    decreases |a|
  {
    if a == [] {
      assert a + b == b;
    } else {
      assert (a + b)[1..] == a[1..] + b;
      PortsOfAppend(a[1..], b);
    }
  }

  lemma PortsOfLine(line: string)
    ensures PortsOf([line]) == LinePorts(line)
  {
    assert [line][1..] == [];
  }

  lemma PortsOfStep(lines: seq<string>, i: nat)
    requires i < |lines|
    ensures PortsOf(lines[..i + 1]) == PortsOf(lines[..i]) + LinePorts(lines[i])
  {
    assert lines[..i + 1] == lines[..i] + [lines[i]];
    PortsOfAppend(lines[..i], [lines[i]]);
    PortsOfLine(lines[i]);
  }

  /** At most one entry per line. */
  lemma {:induction false} PortsOfBound(lines: seq<string>)
    ensures |PortsOf(lines)| <= |lines|
    decreases |lines|
  {
    if lines != [] {
      PortsOfBound(lines[1..]);
    }
  }

  /** No port is reported exactly when no line is an open-tcp line. */
  lemma {:induction false} PortsOfEmpty(lines: seq<string>)
    ensures PortsOf(lines) == [] <==> forall k :: 0 <= k < |lines| ==> !IsOpenTcpLine(lines[k])
    decreases |lines|
  {
    if lines != [] {
      PortsOfEmpty(lines[1..]);
      assert forall k :: 1 <= k < |lines| ==> lines[k] == lines[1..][k - 1];
    }
  }

  /** Every entry ends in ")". */
  lemma {:induction false} PortsOfClosed(lines: seq<string>)
    ensures forall e <- PortsOf(lines) :: EndsWith(e, ")")
    decreases |lines|
  {
    if lines != [] {
      PortsOfClosed(lines[1..]);
      if IsOpenTcpLine(lines[0]) {
        PortEntryFields(lines[0]);
      }
    }
  }

  /** parse_port_output: the loop over the lines of the output. */
  method ParsePortOutput(output: string) returns (ports: seq<string>)
    ensures ports == PortsOf(SplitLines(output))
  {
    ports := CollectPorts(SplitLines(output));
  }

  /** The body of parse_port_output's loop, over the lines of the output:
      append the entry of every line that has both "/tcp" and "open". */
  method CollectPorts(lines: seq<string>) returns (ports: seq<string>)
    ensures ports == PortsOf(lines)
  {
    ports := [];
    var i := 0;
    while i < |lines|
      invariant 0 <= i <= |lines|
      invariant ports == PortsOf(lines[..i])
    {
      var line := lines[i];
      if Contains(line, TcpMarker) && Contains(line, OpenMarker) {
        ports := ports + [PortEntry(line)];
      }
      PortsOfStep(lines, i);
      i := i + 1;
    }
    assert lines[..i] == lines;
  }

  /** The open ports that one port-scan run yields: a failed run yields none. */
  function OpenPorts(outcome: ProcessOutcome): (ports: seq<string>)
    ensures outcome.Completed? ==> ports == PortsOf(SplitLines(outcome.output))
    ensures !outcome.Completed? ==> ports == []
  {
    match outcome
    case Completed(text) => PortsOf(SplitLines(text))
    case _ => []
  }

  /** port_scan: `nmap -p 1-1024 <ip>`, then parse_port_output. */
  method PortScan(run: seq<string> -> ProcessOutcome, ip: string) returns (ports: seq<string>)
    ensures ports == OpenPorts(run(PortScanCommand(ip)))
  {
    var outcome := run(PortScanCommand(ip));
    match outcome {
      case Completed(text) =>
        ports := ParsePortOutput(text);
      case CalledProcessError(_) =>
        ports := [];
      case LaunchFailure(_) =>
        ports := [];
    }
  }

  // ---------------------------------------------------------------------
  // Operating system (parse_os_output, os_detection)
  // ---------------------------------------------------------------------

  const OsMarker := "OS details"
  const UnknownOs := "Unknown OS"

  predicate IsOsLine(line: string) {
    Contains(line, OsMarker)
  }

  /** `line.split(":")[-1].strip()`: the text after the last colon, without
      surrounding whitespace. */
  function OsField(line: string): (os: string)
    ensures ':' !in os
    ensures os == [] || (!IsSpace(os[0]) && !IsSpace(os[|os| - 1]))
  {
    var parts := SplitOn(line, ':');
    StripKeepsOut(parts[|parts| - 1], ':');
    Strip(parts[|parts| - 1])
  }

  /** A line ending in ":" and a colon-free `detail` yields `detail` stripped. */
  lemma OsFieldAfterColon(head: string, detail: string)
    requires ':' !in detail
    ensures OsField(head + ":" + detail) == Strip(detail)
  {
    SplitOnAppend(head, ':', detail);
    SplitOnNone(detail, ':');
  }

  /** A line without a colon yields the whole line, stripped. */
  lemma OsFieldNoColon(line: string)
    requires ':' !in line
    ensures OsField(line) == Strip(line)
  {
    SplitOnNone(line, ':');
  }

  /** The search loop of parse_os_output over the lines: the field of the
      first line containing "OS details", later ones ignored, or
      "Unknown OS" when there is none. */
  function OsDetailsOf(lines: seq<string>): (os: string)
    ensures (forall k :: 0 <= k < |lines| ==> !IsOsLine(lines[k])) ==> os == UnknownOs
    ensures forall i :: 0 <= i < |lines| && IsOsLine(lines[i]) && (forall k :: 0 <= k < i ==> !IsOsLine(lines[k]))
                        ==> os == OsField(lines[i])
    decreases |lines|
  {
    if lines == [] then UnknownOs
    else if IsOsLine(lines[0]) then OsField(lines[0])
    else
      var os := OsDetailsOf(lines[1..]);
      assert forall k :: 1 <= k < |lines| ==> lines[k] == lines[1..][k - 1];
      os
  }

  /** Lines after the first "OS details" line do not change the answer. */
  lemma OsDetailsIgnoresLater(first: seq<string>, later: seq<string>)
    requires exists k :: 0 <= k < |first| && IsOsLine(first[k])
    ensures OsDetailsOf(first + later) == OsDetailsOf(first)
  {
    var k :| 0 <= k < |first| && IsOsLine(first[k]);
    var i := FirstOsLine(first, k);
    assert forall j :: 0 <= j <= i ==> (first + later)[j] == first[j];
  }

  /** The index of the first "OS details" line, given one at `k`. */
  lemma {:induction false} FirstOsLine(lines: seq<string>, k: nat) returns (i: nat)
    requires k < |lines| && IsOsLine(lines[k])
    ensures i <= k && IsOsLine(lines[i]) && forall j :: 0 <= j < i ==> !IsOsLine(lines[j])
    decreases k
  {
    if exists j :: 0 <= j < k && IsOsLine(lines[j]) {
      var j :| 0 <= j < k && IsOsLine(lines[j]);
      i := FirstOsLine(lines, j);
    } else {
      i := k;
    }
  }

  /** parse_os_output. */
  function ParseOsOutput(output: string): string {
    OsDetailsOf(SplitLines(output))
  }

  const OsErrorPrefix := "Error detecting OS: "

  /** os_detection: `nmap -O <ip>`, then parse_os_output; a non-zero exit
      gives "Unknown OS" and any other failure an error text. */
  function OsDetection(outcome: ProcessOutcome): (os: string)
    ensures outcome.CalledProcessError? ==> os == UnknownOs
    ensures outcome.LaunchFailure? ==> os == OsErrorPrefix + outcome.message
    ensures outcome.Completed? ==> os == ParseOsOutput(outcome.output)
  {
    match outcome
    case Completed(text) => ParseOsOutput(text)
    case CalledProcessError(_) => UnknownOs
    case LaunchFailure(message) => OsErrorPrefix + message
  }

  // ---------------------------------------------------------------------
  // Collecting over a sequence of hosts or addresses
  // ---------------------------------------------------------------------

  /** `f` applied to each element of `xs`, in order. */
  function MapEach<T>(f: string -> T, xs: seq<string>): (ys: seq<T>)
    ensures |ys| == |xs|
    ensures forall i :: 0 <= i < |xs| ==> ys[i] == f(xs[i])
    decreases |xs|
  {
    if xs == [] then []
    else
      var rest := MapEach(f, xs[1..]);
      assert forall i :: 1 <= i < |xs| ==> xs[1..][i - 1] == xs[i];
      [f(xs[0])] + rest
  }

  lemma MapEachStep<T>(f: string -> T, xs: seq<string>, i: nat)
    requires i < |xs|
    ensures MapEach(f, xs[..i + 1]) == MapEach(f, xs[..i]) + [f(xs[i])]
  {
    var a, b := MapEach(f, xs[..i + 1]), MapEach(f, xs[..i]) + [f(xs[i])];
    assert |a| == |b|;
    forall k | 0 <= k < |a|
      ensures a[k] == b[k]
    {
      assert xs[..i + 1][k] == xs[k];
      if k < i {
        assert xs[..i][k] == xs[k];
      }
    }
  }

  /** The lists `f` yields for the elements of `xs`, concatenated in order. */
  function Gather(f: string -> seq<string>, xs: seq<string>): seq<string>
    decreases |xs|
  {
    if xs == [] then [] else f(xs[0]) + Gather(f, xs[1..])
  }

  lemma {:induction false} GatherAppend(f: string -> seq<string>, a: seq<string>, b: seq<string>)
    ensures Gather(f, a + b) == Gather(f, a) + Gather(f, b)
    decreases |a|
  {
    if a == [] {
      assert a + b == b;
    } else {
      assert (a + b)[1..] == a[1..] + b;
      GatherAppend(f, a[1..], b);
    }
  }

  lemma GatherStep(f: string -> seq<string>, xs: seq<string>, i: nat)
    requires i < |xs|
    ensures Gather(f, xs[..i + 1]) == Gather(f, xs[..i]) + f(xs[i])
  {
    assert xs[..i + 1] == xs[..i] + [xs[i]];
    GatherAppend(f, xs[..i], [xs[i]]);
    assert [xs[i]][1..] == [];
  }

  /** Every gathered element comes from the list of some element of `xs`. */
  lemma {:induction false} GatherOrigin(f: string -> seq<string>, xs: seq<string>, h: string) returns (i: nat)
    requires h in Gather(f, xs)
    ensures i < |xs| && h in f(xs[i])
    decreases |xs|
  {
    if h in f(xs[0]) {
      i := 0;
    } else {
      var j := GatherOrigin(f, xs[1..], h);
      i := j + 1;
    }
  }

  // ---------------------------------------------------------------------
  // Result rows (display_results)
  // ---------------------------------------------------------------------

  const NoPorts := "None"

  /** `", ".join(open_ports) if open_ports else "None"`. */
  function PortsCell(ports: seq<string>): string {
    if ports == [] then NoPorts else JoinWith(ports, ", ")
  }

  /** For entries in the parser's form (ending in ")") the cell reads
      "None" exactly when there are no open ports; otherwise it ends with
      the last entry. */
  lemma PortsCellNone(ports: seq<string>)
    requires forall e <- ports :: EndsWith(e, ")")
    ensures PortsCell(ports) == NoPorts <==> ports == []
    ensures ports != [] ==> EndsWith(PortsCell(ports), ports[|ports| - 1])
  {
    if ports != [] {
      var cell, last := PortsCell(ports), ports[|ports| - 1];
      assert last in ports;
      JoinWithEndsLast(ports, ", ");
      EndsWithTrans(cell, last, ")");
      assert cell[|cell| - 1] == cell[|cell| - 1..][0] == ')';
    }
  }

  /** The ports cell of a real port scan is "None" exactly when the scan
      failed or reported no open-tcp line. */
  lemma OpenPortsCell(outcome: ProcessOutcome)
    ensures PortsCell(OpenPorts(outcome)) == NoPorts <==>
              (!outcome.Completed? ||
               forall k :: 0 <= k < |SplitLines(outcome.output)| ==> !IsOpenTcpLine(SplitLines(outcome.output)[k]))
  {
    if outcome.Completed? {
      var lines := SplitLines(outcome.output);
      assert OpenPorts(outcome) == PortsOf(lines);
      PortsOfClosed(lines);
      PortsCellNone(PortsOf(lines));
      PortsOfEmpty(lines);
      assert PortsCell(OpenPorts(outcome)) == NoPorts <==> PortsOf(lines) == [];
    }
  }

  /** The row display_results adds for `host`. */
  function HostRow(run: seq<string> -> ProcessOutcome, host: string): Row {
    Row(host, PortsCell(OpenPorts(run(PortScanCommand(host)))), OsDetection(run(OsDetectionCommand(host))))
  }

  /** The body of display_results' loop: port scan, OS detection, row. */
  method ScanHost(run: seq<string> -> ProcessOutcome, host: string) returns (row: Row)
    ensures row == HostRow(run, host)
  {
    var openPorts := PortScan(run, host);
    var osInfo := OsDetection(run(OsDetectionCommand(host)));
    row := Row(host, PortsCell(openPorts), osInfo);
  }

  /** The row display_results adds for each host, as a function. */
  function RowOf(run: seq<string> -> ProcessOutcome): string -> Row {
    host => HostRow(run, host)
  }

  /** The table display_results prints: the rows of `hosts`, in order. */
  function HostRows(run: seq<string> -> ProcessOutcome, hosts: seq<string>): (rows: seq<Row>)
    ensures |rows| == |hosts|
    ensures forall i :: 0 <= i < |hosts| ==> rows[i] == HostRow(run, hosts[i])
  {
    MapEach(RowOf(run), hosts)
  }

  /** display_results: one row per live host, in order, each holding that
      host, its ports cell and its OS text. */
  method DisplayResults(run: seq<string> -> ProcessOutcome, hosts: seq<string>) returns (rows: seq<Row>)
    ensures rows == HostRows(run, hosts)
  {
    rows := [];
    var i := 0;
    while i < |hosts|
      invariant 0 <= i <= |hosts|
      invariant rows == MapEach(RowOf(run), hosts[..i])
    {
      var row := ScanHost(run, hosts[i]);
      MapEachStep(RowOf(run), hosts, i);
      rows := rows + [row];
      i := i + 1;
    }
    assert hosts[..i] == hosts;
  }

  // ---------------------------------------------------------------------
  // The discovery loop and the run (main)
  // ---------------------------------------------------------------------

  /** The hosts that the discovery run of each address yields, as a function. */
  function DiscoveryOf(run: seq<string> -> ProcessOutcome): string -> seq<string> {
    address => DiscoveredHosts(run(DiscoveryCommand(address)))
  }

  /** The live-host list main builds: the discovery results of the
      addresses, concatenated in address order. */
  function LiveHosts(run: seq<string> -> ProcessOutcome, addresses: seq<string>): seq<string> {
    Gather(DiscoveryOf(run), addresses)
  }

  lemma LiveHostsStep(run: seq<string> -> ProcessOutcome, addresses: seq<string>, i: nat)
    requires i < |addresses|
    ensures LiveHosts(run, addresses[..i + 1])
            == LiveHosts(run, addresses[..i]) + DiscoveredHosts(run(DiscoveryCommand(addresses[i])))
  {
    GatherStep(DiscoveryOf(run), addresses, i);
  }

  /** Every live host was reported by the discovery run of some address. */
  lemma LiveHostsOrigin(run: seq<string> -> ProcessOutcome, addresses: seq<string>, h: string)
    requires h in LiveHosts(run, addresses)
    ensures exists i :: 0 <= i < |addresses| && h in DiscoveredHosts(run(DiscoveryCommand(addresses[i])))
  {
    var i := GatherOrigin(DiscoveryOf(run), addresses, h);
    assert h in DiscoveredHosts(run(DiscoveryCommand(addresses[i])));
  }

  /** The loop in main: scan each address in turn, extend the live-host list
      with what it reports, advance the progress bar once per address. */
  method DiscoverHosts(run: seq<string> -> ProcessOutcome, addresses: seq<string>)
    returns (hosts: seq<string>, progress: nat)
    ensures hosts == LiveHosts(run, addresses)
    ensures progress == |addresses|
  {
    hosts, progress := [], 0;
    var i := 0;
    while i < |addresses|
      invariant 0 <= i <= |addresses|
      invariant hosts == LiveHosts(run, addresses[..i])
      invariant progress == i
    {
      var found := ScanNetwork(run, addresses[i]);
      LiveHostsStep(run, addresses, i);
      hosts := hosts + found;
      progress := progress + 1;
      i := i + 1;
    }
    assert addresses[..i] == addresses;
  }

  const NoHostsMessage := "No active hosts found."
  const FoundPrefix := "Active hosts found: "

  /** The line main prints after discovery. */
  function Summary(hosts: seq<string>): string {
    if hosts != [] then FoundPrefix + NatToString(|hosts|) else NoHostsMessage
  }

  /** main, from the typed target to the printed report: a resolver
      exception other than `gaierror` escapes; otherwise the rows are the
      live hosts' rows in discovery order, and the summary counts them. */
  method RunScan(target: string, resolve: string -> ResolveOutcome, run: seq<string> -> ProcessOutcome)
    returns (r: Result<Report>)
    ensures ResolveIpRange(target, resolve).Err? ==> r == Err(ResolveIpRange(target, resolve).message)
    ensures ResolveIpRange(target, resolve).Ok? ==>
              var hosts := LiveHosts(run, ResolveIpRange(target, resolve).value);
              && r.Ok?
              && r.value.summary == Summary(hosts)
              && r.value.rows == HostRows(run, hosts)
  {
    var ipRange := ResolveIpRange(target, resolve);
    if ipRange.Err? {
      return Err(ipRange.message);
    }
    var hosts, _ := DiscoverHosts(run, ipRange.value);
    if hosts != [] {
      var rows := DisplayResults(run, hosts);
      r := Ok(Report(FoundPrefix + NatToString(|hosts|), rows));
    } else {
      r := Ok(Report(NoHostsMessage, []));
    }
  }
}
