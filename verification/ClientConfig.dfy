/** internal/connector/wireguard/config.go: the client's configuration text, its validation and
    the rewriting of single fields. */
module ClientConfig {
  import opened Text
  import opened WireGuard
  import Ipv4

  datatype Settings = Settings(
    privateKey: string, dns: string, serverPublicKey: string, serverIp: string, serverPort: int, allowedIps: string)

  function ConfigLines(s: Settings): seq<string>
    requires s.serverPort >= 0
  {
    [ "[Interface]",
      "PrivateKey = " + s.privateKey,
      "Address = 10.100.0.2/32",
      "DNS = " + s.dns,
      "MTU = 1420",
      "",
      "[Peer]",
      "PublicKey = " + s.serverPublicKey,
      "Endpoint = " + s.serverIp + ":" + Digits(s.serverPort),
      "AllowedIPs = " + s.allowedIps,
      "PersistentKeepalive = 25",
      "" ]
  }

  /** The text `GenerateConfig` formats. */
  function GenerateConfig(s: Settings): string
    requires s.serverPort >= 0
  {
    Join(ConfigLines(s), '\n')
  }

  // ---- validation ----

  /** `fmt.Sscanf(port, "%d")`: empty or too large leaves 0. */
  function PortNumber(port: string): int
    requires AllDigits(port)
  {
    var n := ParseInt64(port);
    if n.Some? then n.value else 0
  }

  predicate IsValidPort(port: string) {
    AllDigits(port) && 0 < PortNumber(port) < 65536
  }

  /** `isValidEndpoint`. */
  method IsValidEndpoint(endpoint: string) returns (valid: bool)
    ensures valid == EndpointIsValid(endpoint)
  {
    var parts := Split(endpoint, ':');
    if |parts| != 2 {
      return false;
    }
    var ip, port := parts[0], parts[1];
    if |ip| < 7 || |ip| > 15 {
      return false;
    }
    for k := 0 to |port|
      invariant AllDigits(port[..k])
    {
      if port[k] < '0' || port[k] > '9' {
        assert !IsDigit(port[k]);
        return false;
      }
      assert port[..k + 1] == port[..k] + [port[k]];
    }
    assert port[..|port|] == port;
    var portNum := PortNumber(port);
    valid := portNum > 0 && portNum < 65536;
  }

  predicate EndpointIsValid(endpoint: string) {
    var parts := Split(endpoint, ':');
    |parts| == 2 && 7 <= |parts[0]| <= 15 && IsValidPort(parts[1])
  }

  /** What it accepts: 7 to 15 characters, one colon, and the digits of a number in 1..65535,
      however many zeros lead them. */
  lemma EndpointMeans(ip: string, port: string)
    requires ':' !in ip && ':' !in port
    ensures EndpointIsValid(ip + ":" + port) <==>
              7 <= |ip| <= 15 && AllDigits(port) && 0 < Number(port) < 65536
  {
    hide IsValidPort;
    SplitOne(port, ':');
    SplitAppend(ip, port, ':');
    assert ip + [':'] + port == ip + ":" + port;
    PortMeans(port);
  }

  lemma PortMeans(port: string)
    ensures IsValidPort(port) <==> AllDigits(port) && 0 < Number(port) < 65536
  {
    hide Number;
    if AllDigits(port) {
      if port == [] {
        NumberOfNothing();
      } else {
        assert IsDigit(port[0]);
      }
    }
  }

  lemma NumberOfNothing()
    ensures Number("") == 0
  {
  }

  /** Everything else has no colon or more than one. */
  lemma EndpointHasOneColon(endpoint: string)
    requires EndpointIsValid(endpoint)
    ensures exists ip, port :: ':' !in ip && ':' !in port && endpoint == ip + ":" + port
  {
    JoinSplit(endpoint, ':');
    var parts := Split(endpoint, ':');
    assert parts[1..] == [parts[1]];
    assert Join(parts[1..], ':') == parts[1];
    assert endpoint == parts[0] + ":" + parts[1];
  }

  datatype Kind = InterfaceHeader | PeerHeader | PrivateKey | PublicKey | Endpoint | Other

  /** What the validator takes a trimmed line for. */
  function KindOf(line: string): Kind {
    if HasPrefix(line, "[Interface]") then InterfaceHeader
    else if HasPrefix(line, "[Peer]") then PeerHeader
    else if HasPrefix(line, "PrivateKey") then PrivateKey
    else if HasPrefix(line, "PublicKey") then PublicKey
    else if HasPrefix(line, "Endpoint") then Endpoint
    else Other
  }

  function IndexOf(s: string, c: char): (i: nat)
    ensures i <= |s| && (i < |s| ==> s[i] == c) && c !in s[..i]
  {
    if s == [] || s[0] == c then 0 else 1 + IndexOf(s[1..], c)
  }

  lemma {:induction false} FirstIndex(s: string, c: char, i: nat)
    requires i < |s| && s[i] == c && c !in s[..i]
    ensures IndexOf(s, c) == i
  {
    if i > 0 {
      assert s[0] == s[..i][0];
      assert forall x :: x in s[1..][..i - 1] ==> x in s[..i];
      FirstIndex(s[1..], c, i - 1);
    }
  }

  /** What follows the first equals sign; the source panics if there is none. */
  function ValueOf(line: string): Option<string> {
    var i := IndexOf(line, '=');
    if i == |line| then None else Some(TrimSpace(line[i + 1..]))
  }

  datatype Flags = Flags(hasInterface: bool, hasPeer: bool, privateKeyValid: bool, publicKeyValid: bool, endpointValid: bool)

  const NO_FLAGS := Flags(false, false, false, false, false)

  /** The flags after one more line; `None` once the validator has panicked. */
  function Note(flags: Option<Flags>, rawLine: string): Option<Flags> {
    if flags.None? then None
    else
      var line := TrimSpace(rawLine);
      match KindOf(line)
      case InterfaceHeader => Some(flags.value.(hasInterface := true))
      case PeerHeader => Some(flags.value.(hasPeer := true))
      case Other => flags
      case key =>
        var v := ValueOf(line);
        if v.None? then None
        else if key == PrivateKey then Some(flags.value.(privateKeyValid := IsValidKey(v.value)))
        else if key == PublicKey then Some(flags.value.(publicKeyValid := IsValidKey(v.value)))
        else Some(flags.value.(endpointValid := EndpointIsValid(v.value)))
  }

  function Scan(lines: seq<string>): Option<Flags>
    decreases |lines|
  {
    if lines == [] then Some(NO_FLAGS) else Note(Scan(lines[..|lines| - 1]), lines[|lines| - 1])
  }

  datatype Verdict = Panics | MissingSections | InvalidPrivateKey | InvalidPublicKey | InvalidEndpoint | Valid

  function VerdictOn(flags: Option<Flags>): Verdict {
    if flags.None? then Panics
    else if !flags.value.hasInterface || !flags.value.hasPeer then MissingSections
    else if !flags.value.privateKeyValid then InvalidPrivateKey
    else if !flags.value.publicKeyValid then InvalidPublicKey
    else if !flags.value.endpointValid then InvalidEndpoint
    else Valid
  }

  function Validate(config: string): Verdict {
    VerdictOn(Scan(Split(config, '\n')))
  }

  /** One more line, case by case. */
  lemma NotedAs(f: Flags, rawLine: string)
    ensures var line, next := TrimSpace(rawLine), Note(Some(f), rawLine);
            var v := ValueOf(line);
            if HasPrefix(line, "[Interface]") then next == Some(f.(hasInterface := true))
            else if HasPrefix(line, "[Peer]") then next == Some(f.(hasPeer := true))
            else if HasPrefix(line, "PrivateKey") then
              next == if v.None? then None else Some(f.(privateKeyValid := IsValidKey(v.value)))
            else if HasPrefix(line, "PublicKey") then
              next == if v.None? then None else Some(f.(publicKeyValid := IsValidKey(v.value)))
            else if HasPrefix(line, "Endpoint") then
              next == if v.None? then None else Some(f.(endpointValid := EndpointIsValid(v.value)))
            else next == Some(f)
  {
    hide IsValidKey;
    hide EndpointIsValid;
    hide TrimSpace;
    hide ValueOf;
    hide HasPrefix;
  }

  /** `ValidateConfig`: later lines of a kind override earlier ones. */
  method ValidateConfig(config: string) returns (verdict: Verdict)
    ensures verdict == Validate(config)
  {
    hide IsValidKey;
    hide EndpointIsValid;
    hide TrimSpace;
    hide ValueOf;
    hide HasPrefix;
    hide Note;
    hide Scan;
    var lines := Split(config, '\n');
    var hasInterface, hasPeer := false, false;
    var privateKeyValid, publicKeyValid, endpointValid := false, false, false;
    ScanNothing();
    for n := 0 to |lines|
      invariant Scan(lines[..n]) == Some(Flags(hasInterface, hasPeer, privateKeyValid, publicKeyValid, endpointValid))
    {
      ScanStep(lines, n);
      NotedAs(Flags(hasInterface, hasPeer, privateKeyValid, publicKeyValid, endpointValid), lines[n]);
      var line := TrimSpace(lines[n]);
      var value := ValueOf(line);
      if HasPrefix(line, "[Interface]") {
        hasInterface := true;
      } else if HasPrefix(line, "[Peer]") {
        hasPeer := true;
      } else if HasPrefix(line, "PrivateKey") {
        if value.None? {
          PanicStays(lines, n + 1);
          return Panics;
        }
        privateKeyValid := IsValidKey(value.value);
      } else if HasPrefix(line, "PublicKey") {
        if value.None? {
          PanicStays(lines, n + 1);
          return Panics;
        }
        publicKeyValid := IsValidKey(value.value);
      } else if HasPrefix(line, "Endpoint") {
        if value.None? {
          PanicStays(lines, n + 1);
          return Panics;
        }
        endpointValid := IsValidEndpoint(value.value);
      }
    }
    assert lines[..|lines|] == lines;
    if !hasInterface || !hasPeer {
      return MissingSections;
    }
    if !privateKeyValid {
      return InvalidPrivateKey;
    }
    if !publicKeyValid {
      return InvalidPublicKey;
    }
    verdict := if endpointValid then Valid else InvalidEndpoint;
  }

  lemma {:induction false} PanicStays(lines: seq<string>, n: nat)
    requires n <= |lines| && Scan(lines[..n]).None?
    ensures Scan(lines).None?
    decreases |lines|
  {
    hide Note;
    if n == |lines| {
      assert lines[..n] == lines;
    } else {
      assert lines[..|lines| - 1][..n] == lines[..n];
      PanicStays(lines[..|lines| - 1], n);
      NoteOfPanic(lines[|lines| - 1]);
    }
  }

  lemma NoteOfPanic(line: string)
    ensures Note(None, line) == None
  {
  }

  // ---- what the verdict means ----

  predicate Says(line: string, name: string) {
    name <= TrimSpace(line)
  }

  /** The validator reads a value on the line. */
  predicate IsKeyLine(line: string) {
    Says(line, "PrivateKey") || Says(line, "PublicKey") || Says(line, "Endpoint")
  }

  /** After the first equals sign of the line there is, apart from white space, a good value. */
  ghost predicate GoodValue(line: string, good: string -> bool) {
    exists name, value :: TrimSpace(line) == name + "=" + value && '=' !in name && good(TrimSpace(value))
  }

  predicate IsLastLine(lines: seq<string>, i: nat, name: string) {
    i < |lines| && Says(lines[i], name) && forall k :: i < k < |lines| ==> !Says(lines[k], name)
  }

  /** The last line of that name has a good value. */
  ghost predicate LastIsGood(lines: seq<string>, name: string, good: string -> bool) {
    exists i: nat :: IsLastLine(lines, i, name) && GoodValue(lines[i], good)
  }

  predicate Somewhere(lines: seq<string>, name: string) {
    exists i :: 0 <= i < |lines| && Says(lines[i], name)
  }

  predicate Breaks(lines: seq<string>) {
    exists i :: 0 <= i < |lines| && IsKeyLine(lines[i]) && '=' !in TrimSpace(lines[i])
  }

  lemma ValueMeans(line: string, good: string -> bool)
    ensures ValueOf(line).None? <==> '=' !in line
    ensures ValueOf(line).Some? ==> (good(ValueOf(line).value) <==>
              exists name, value :: line == name + "=" + value && '=' !in name && good(TrimSpace(value)))
  {
    var i := IndexOf(line, '=');
    if i < |line| {
      assert line == line[..i] + "=" + line[i + 1..];
      if name, value :| line == name + "=" + value && '=' !in name && good(TrimSpace(value)) {
        assert line[..|name|] == name && line[|name|] == '=';
        FirstIndex(line, '=', |name|);
        assert line[i + 1..] == value;
      }
    } else {
      assert line[..i] == line;
    }
  }

  lemma LastIsGoodStep(lines: seq<string>, n: nat, name: string, good: string -> bool)
    requires n < |lines|
    ensures LastIsGood(lines[..n + 1], name, good) <==>
              if Says(lines[n], name) then GoodValue(lines[n], good) else LastIsGood(lines[..n], name, good)
  {
    hide Says;
    hide GoodValue;
    var now := lines[..n + 1];
    if Says(lines[n], name) {
      assert IsLastLine(now, n, name);
      assert now[n] == lines[n];
      assert forall i: nat :: IsLastLine(now, i, name) ==> !(i < n < |now|);
    } else {
      forall i: nat ensures IsLastLine(now, i, name) <==> IsLastLine(lines[..n], i, name) {
        SameLast(lines, n, i, name);
      }
      if i: nat :| IsLastLine(lines[..n], i, name) && GoodValue(lines[..n][i], good) {
        assert IsLastLine(now, i, name) && GoodValue(now[i], good);
      }
      if i: nat :| IsLastLine(now, i, name) && GoodValue(now[i], good) {
        assert IsLastLine(lines[..n], i, name) && GoodValue(lines[..n][i], good);
      }
    }
  }

  lemma SameLast(lines: seq<string>, n: nat, i: nat, name: string)
    requires n < |lines| && !Says(lines[n], name)
    ensures IsLastLine(lines[..n + 1], i, name) <==> IsLastLine(lines[..n], i, name)
  {
    hide Says;
    var now, before := lines[..n + 1], lines[..n];
    if i < n {
      assert now[i] == before[i];
      assert forall k :: i < k < n ==> now[k] == before[k];
      if IsLastLine(before, i, name) {
        forall k | i < k < |now| ensures !Says(now[k], name) {
          if k < n {
            assert now[k] == before[k];
          }
        }
      }
    }
  }

  lemma SomewhereStep(lines: seq<string>, n: nat, name: string)
    requires n < |lines|
    ensures Somewhere(lines[..n + 1], name) <==> Says(lines[n], name) || Somewhere(lines[..n], name)
  {
    hide Says;
    var now := lines[..n + 1];
    assert now[n] == lines[n];
    if i :| 0 <= i < n && Says(lines[..n][i], name) {
      assert Says(now[i], name);
    }
    if i :| 0 <= i < |now| && Says(now[i], name) {
      assert i == n || Says(lines[..n][i], name);
    }
  }

  lemma BreaksStep(lines: seq<string>, n: nat)
    requires n < |lines|
    ensures Breaks(lines[..n + 1]) <==> (IsKeyLine(lines[n]) && '=' !in TrimSpace(lines[n])) || Breaks(lines[..n])
  {
    hide IsKeyLine;
    var now := lines[..n + 1];
    assert now[n] == lines[n];
    if i :| 0 <= i < n && IsKeyLine(lines[..n][i]) && '=' !in TrimSpace(lines[..n][i]) {
      assert IsKeyLine(now[i]) && '=' !in TrimSpace(now[i]);
    }
    if i :| 0 <= i < |now| && IsKeyLine(now[i]) && '=' !in TrimSpace(now[i]) {
      assert i == n || IsKeyLine(lines[..n][i]);
    }
  }

  /** A line begins with at most one of the names. */
  lemma NamesExclude(line: string)
    ensures Says(line, "[Interface]") ==> !Says(line, "[Peer]") && !IsKeyLine(line)
    ensures Says(line, "[Peer]") ==> !IsKeyLine(line)
    ensures Says(line, "PrivateKey") ==> !Says(line, "PublicKey") && !Says(line, "Endpoint")
    ensures Says(line, "PublicKey") ==> !Says(line, "Endpoint")
  {
    var t := TrimSpace(line);
    hide TrimSpace;
    assert "[Interface]"[0] == '[' && "[Interface]"[1] == 'I' && "[Peer]"[0] == '[' && "[Peer]"[1] == 'P';
    assert "PrivateKey"[0] == 'P' && "PrivateKey"[1] == 'r' && "PublicKey"[0] == 'P' && "PublicKey"[1] == 'u';
    assert "Endpoint"[0] == 'E';
  }

  /** The flags hold what the lines say. */
  ghost predicate FlagsMean(lines: seq<string>, flags: Option<Flags>) {
    && (flags.None? <==> Breaks(lines))
    && (flags.Some? ==>
          && (flags.value.hasInterface <==> Somewhere(lines, "[Interface]"))
          && (flags.value.hasPeer <==> Somewhere(lines, "[Peer]"))
          && (flags.value.privateKeyValid <==> LastIsGood(lines, "PrivateKey", IsValidKey))
          && (flags.value.publicKeyValid <==> LastIsGood(lines, "PublicKey", IsValidKey))
          && (flags.value.endpointValid <==> LastIsGood(lines, "Endpoint", EndpointIsValid)))
  }

  lemma NothingMeans()
    ensures FlagsMean([], Some(NO_FLAGS))
  {
  }

  lemma NoteMeans(lines: seq<string>, n: nat, flags: Flags)
    requires n < |lines| && FlagsMean(lines[..n], Some(flags))
    ensures FlagsMean(lines[..n + 1], Note(Some(flags), lines[n]))
  {
    hide IsValidKey;
    hide EndpointIsValid;
    hide TrimSpace;
    hide ValueOf;
    hide Note;
    hide Breaks;
    hide Somewhere;
    hide LastIsGood;
    var line := lines[n];
    NotedAs(flags, line);
    NamesExclude(line);
    SomewhereStep(lines, n, "[Interface]");
    SomewhereStep(lines, n, "[Peer]");
    BreaksStep(lines, n);
    LastIsGoodStep(lines, n, "PrivateKey", IsValidKey);
    LastIsGoodStep(lines, n, "PublicKey", IsValidKey);
    LastIsGoodStep(lines, n, "Endpoint", EndpointIsValid);
    ValueMeans(TrimSpace(line), IsValidKey);
    ValueMeans(TrimSpace(line), EndpointIsValid);
  }

  lemma {:induction false} ScanMeans(lines: seq<string>)
    ensures FlagsMean(lines, Scan(lines))
    decreases |lines|
  {
    hide Note;
    hide FlagsMean;
    if lines == [] {
      NothingMeans();
    } else {
      var n := |lines| - 1;
      assert lines[..n + 1] == lines;
      ScanMeans(lines[..n]);
      if Scan(lines[..n]).None? {
        NoteOfPanic(lines[n]);
        StillBroken(lines, n);
      } else {
        NoteMeans(lines, n, Scan(lines[..n]).value);
      }
    }
  }

  lemma StillBroken(lines: seq<string>, n: nat)
    requires n < |lines| && FlagsMean(lines[..n], None)
    ensures FlagsMean(lines[..n + 1], None)
  {
    BreaksStep(lines, n);
    hide Breaks;
  }

  /** The verdict on any text: it panics on a key line without an equals sign; otherwise both
      sections are required, and the last line of each kind must have a good value. */
  lemma ValidateMeans(config: string)
    ensures var lines, verdict := Split(config, '\n'), Validate(config);
            var sections := Somewhere(lines, "[Interface]") && Somewhere(lines, "[Peer]");
            var privateKey, publicKey := LastIsGood(lines, "PrivateKey", IsValidKey), LastIsGood(lines, "PublicKey", IsValidKey);
            && (verdict == Panics <==> Breaks(lines))
            && (verdict == MissingSections <==> !Breaks(lines) && !sections)
            && (verdict == InvalidPrivateKey <==> !Breaks(lines) && sections && !privateKey)
            && (verdict == InvalidPublicKey <==> !Breaks(lines) && sections && privateKey && !publicKey)
            && (verdict == Valid <==>
                  !Breaks(lines) && sections && privateKey && publicKey && LastIsGood(lines, "Endpoint", EndpointIsValid))
  {
    hide Scan;
    hide Breaks;
    hide Somewhere;
    hide LastIsGood;
    ScanMeans(Split(config, '\n'));
  }

  // ---- a generated text is valid ----


  /** Trimming never removes the first character of a text that starts with one, nor anything
      up to a later non-space character. */
  lemma {:induction false} TrimRightKeeps(s: string, k: nat)
    requires k < |s| && !IsSpace(s[k])
    ensures TrimRight(s) <= s && |TrimRight(s)| > k
    decreases |s|
  {
    if IsSpace(s[|s| - 1]) {
      TrimRightKeeps(s[..|s| - 1], k);
    }
  }

  lemma TrimKeeps(s: string, k: nat)
    requires k < |s| && !IsSpace(s[0]) && !IsSpace(s[k])
    ensures TrimSpace(s) <= s && |TrimSpace(s)| > k
  {
    TrimRightKeeps(s, k);
  }

  lemma TrimNothing(s: string)
    requires s != [] && !IsSpace(s[0]) && !IsSpace(s[|s| - 1])
    ensures TrimSpace(s) == s
  {
    TrimKeeps(s, |s| - 1);
  }

  /** A line `name = value` whose value neither starts nor ends with a space. */
  lemma FieldLine(name: string, value: string)
    requires IsWord(name) && '=' !in name && value != [] && !IsSpace(value[0]) && !IsSpace(value[|value| - 1])
    ensures var line := name + " = " + value;
            TrimSpace(line) == line && ValueOf(line) == Some(value)
  {
    var line := name + " = " + value;
    assert line[0] == name[0];
    TrimNothing(line);
    var i := |name| + 1;
    assert line[..i] == name + " ";
    FirstIndex(line, '=', i);
    assert line[i + 1..] == [' '] + value;
    assert TrimLeft([' '] + value) == TrimLeft(value) by {
      assert ([' '] + value)[1..] == value;
    }
    TrimNothing(value);
  }

  /** Settings a client gets: valid keys, an address text, a port, values on one line. */
  predicate IsUsable(s: Settings) {
    && IsValidKey(s.privateKey) && IsValidKey(s.serverPublicKey)
    && IsAddressText(s.serverIp) && 1 <= s.serverPort <= 65535
    && '\n' !in s.dns && '\n' !in s.allowedIps
  }

  predicate IsAddressText(ip: string) {
    7 <= |ip| <= 15 && ':' !in ip && '\n' !in ip && !IsSpace(ip[0])
  }

  /** A value on one line, with no space around it. */
  predicate IsOneLine(value: string) {
    value != [] && !IsSpace(value[0]) && !IsSpace(value[|value| - 1]) && '\n' !in value
  }

  lemma ValidKeyText(key: string)
    requires IsValidKey(key)
    ensures IsOneLine(key)
  {
  }

  lemma EndpointText(ip: string, port: nat)
    requires IsAddressText(ip) && 1 <= port <= 65535
    ensures var e := ip + ":" + Digits(port);
            EndpointIsValid(e) && IsOneLine(e)
  {
    var e := ip + ":" + Digits(port);
    assert ':' !in Digits(port) && '\n' !in Digits(port) by {
      forall k | 0 <= k < |Digits(port)| ensures IsDigit(Digits(port)[k]) {
      }
    }
    EndpointMeans(ip, Digits(port));
    NumberOfDigits(port);
    assert e[|e| - 1] == Digits(port)[|Digits(port)| - 1];
  }

  /** The text of every IPv4 address is an address text. */
  lemma DottedTextIsAddress(ip: Ipv4.Ip)
    ensures IsAddressText(Ipv4.DottedText(ip))
  {
    var d := [Digits(ip[0]), Digits(ip[1]), Digits(ip[2]), Digits(ip[3])];
    forall k | 0 <= k < 4 ensures 1 <= |d[k]| <= 3 {
      ByteText(ip[k]);
    }
    assert d[1..][1..][1..] == [d[3]];
    assert d[1..][1..] == [d[2], d[3]] && d[1..] == [d[1], d[2], d[3]];
    assert Join([d[3]], '.') == d[3];
    assert Join([d[2], d[3]], '.') == d[2] + ['.'] + d[3];
    assert Join([d[1], d[2], d[3]], '.') == d[1] + ['.'] + (d[2] + ['.'] + d[3]);
    assert Ipv4.DottedText(ip) == d[0] + ['.'] + (d[1] + ['.'] + (d[2] + ['.'] + d[3]));
    forall k, c | 0 <= k < 4 && c in [':', '\n'] ensures c !in d[k] {
      Ipv4.NoCharInDigits(ip[k], c);
    }
    Ipv4.NoCharInJoin(d, '.', ':');
    Ipv4.NoCharInJoin(d, '.', '\n');
  }

  lemma ByteText(b: Ipv4.Byte)
    ensures 1 <= |Digits(b)| <= 3
  {
    var n: nat := b as int;
    if n >= 10 {
      assert |Digits(n)| == |Digits(n / 10)| + 1;
      if n / 10 >= 10 {
        assert |Digits(n / 10)| == |Digits(n / 10 / 10)| + 1;
        assert n / 10 / 10 < 10;
      }
    }
  }

  lemma HeadersNoted(flags: Flags)
    ensures Note(Some(flags), "[Interface]") == Some(flags.(hasInterface := true))
    ensures Note(Some(flags), "[Peer]") == Some(flags.(hasPeer := true))
  {
    var i, p := "[Interface]", "[Peer]";
    TrimNothing(i);
    TrimNothing(p);
    assert KindOf(i) == InterfaceHeader;
    assert KindOf(p) == PeerHeader by {
      assert p[1] == 'P';
    }
  }

  lemma NoSpaceAt(c: char)
    requires '!' <= c <= '~'
    ensures !IsSpace(c)
  {
  }

  lemma TrimEmpty()
    ensures TrimSpace("") == ""
  {
  }

  lemma KindsOfFixedLines()
    ensures KindOf("") == Other && KindOf("MTU = 1420") == Other && KindOf("PersistentKeepalive = 25") == Other
  {
    var m, k := "MTU = 1420", "PersistentKeepalive = 25";
    assert m[0] == 'M' && k[0] == 'P' && k[1] == 'e';
  }

  /** A line of no kind, with no space at its ends. */
  lemma OtherLineNoted(flags: Flags, line: string)
    requires line != "" && '!' <= line[0] <= '~' && '!' <= line[|line| - 1] <= '~' && KindOf(line) == Other
    ensures Note(Some(flags), line) == Some(flags)
  {
    hide KindOf;
    hide Note;
    NoSpaceAt(line[0]);
    NoSpaceAt(line[|line| - 1]);
    TrimNothing(line);
    NoteOfFreeLine(Some(flags), line);
  }

  lemma FixedLinesNoted(flags: Flags)
    ensures Note(Some(flags), "") == Some(flags)
    ensures Note(Some(flags), "MTU = 1420") == Some(flags)
    ensures Note(Some(flags), "PersistentKeepalive = 25") == Some(flags)
    ensures Note(Some(flags), "Address = 10.100.0.2/32") == Some(flags)
  {
    hide Note;
    hide KindOf;
    hide IsSpace;
    KindsOfFixedLines();
    TrimEmpty();
    NoteOfFreeLine(Some(flags), "");
    OtherLineNoted(flags, "MTU = 1420");
    OtherLineNoted(flags, "PersistentKeepalive = 25");
    FreeTextNoted(flags, "Address", "10.100.0.2/32");
    assert FieldText("Address", "10.100.0.2/32") == "Address = 10.100.0.2/32";
  }

  lemma KindsOfKeyLines(value: string)
    ensures KindOf("PrivateKey" + " = " + value) == PrivateKey
    ensures KindOf("PublicKey" + " = " + value) == PublicKey
    ensures KindOf("Endpoint" + " = " + value) == Endpoint
  {
    var a, b, c := "PrivateKey" + " = " + value, "PublicKey" + " = " + value, "Endpoint" + " = " + value;
    assert a[..10] == "PrivateKey" && a[0] == 'P' && a[1] == 'r';
    assert b[..9] == "PublicKey" && b[0] == 'P' && b[1] == 'u';
    assert c[..8] == "Endpoint" && c[0] == 'E';
  }

  /** How a line of a trimmed name and value counts. */
  lemma KeyLineNoted(flags: Flags, name: string, value: string)
    requires IsWord(name) && '=' !in name && IsOneLine(value)
    ensures var line := name + " = " + value;
            var kind := KindOf(line);
            && (kind == PrivateKey ==> Note(Some(flags), line) == Some(flags.(privateKeyValid := IsValidKey(value))))
            && (kind == PublicKey ==> Note(Some(flags), line) == Some(flags.(publicKeyValid := IsValidKey(value))))
            && (kind == Endpoint ==> Note(Some(flags), line) == Some(flags.(endpointValid := EndpointIsValid(value))))
  {
    FieldLine(name, value);
    hide IsValidKey;
    hide EndpointIsValid;
    hide KindOf;
    hide ValueOf;
    hide TrimSpace;
  }

  lemma PrivateKeyNoted(flags: Flags, key: string)
    requires IsOneLine(key)
    ensures Note(Some(flags), "PrivateKey = " + key) == Some(flags.(privateKeyValid := IsValidKey(key)))
  {
    hide Note;
    hide KindOf;
    KindsOfKeyLines(key);
    KeyLineNoted(flags, "PrivateKey", key);
    assert "PrivateKey" + " = " + key == "PrivateKey = " + key;
  }

  lemma PublicKeyNoted(flags: Flags, key: string)
    requires IsOneLine(key)
    ensures Note(Some(flags), "PublicKey = " + key) == Some(flags.(publicKeyValid := IsValidKey(key)))
  {
    hide Note;
    hide KindOf;
    KindsOfKeyLines(key);
    KeyLineNoted(flags, "PublicKey", key);
    assert "PublicKey" + " = " + key == "PublicKey = " + key;
  }

  lemma EndpointNoted(flags: Flags, endpoint: string)
    requires IsOneLine(endpoint)
    ensures Note(Some(flags), "Endpoint = " + endpoint) == Some(flags.(endpointValid := EndpointIsValid(endpoint)))
  {
    hide Note;
    hide KindOf;
    KindsOfKeyLines(endpoint);
    KeyLineNoted(flags, "Endpoint", endpoint);
    assert "Endpoint" + " = " + endpoint == "Endpoint = " + endpoint;
  }

  // ---- rewriting a field ----

  /** The fields whose lines the validator does not look at. */
  const FREE_FIELDS := {"Address", "DNS", "AllowedIPs"}

  function FieldText(field: string, value: string): string {
    field + " = " + value
  }

  predicate Matches(line: string, field: string) {
    HasPrefix(TrimSpace(line), field)
  }

  /** Index of the first line of a field, or the number of lines. */
  function FirstMatch(lines: seq<string>, field: string): (i: nat)
    ensures i <= |lines|
    ensures i < |lines| ==> Matches(lines[i], field)
    ensures forall k :: 0 <= k < i ==> !Matches(lines[k], field)
  {
    if lines == [] || Matches(lines[0], field) then 0 else 1 + FirstMatch(lines[1..], field)
  }

  function UpdatedLines(lines: seq<string>, field: string, value: string): seq<string> {
    var i := FirstMatch(lines, field);
    if i < |lines| then lines[i := FieldText(field, value)] else lines
  }

  function Updated(config: string, field: string, value: string): string {
    Join(UpdatedLines(Split(config, '\n'), field, value), '\n')
  }

  /** `UpdateConfigField`: the first matching line is overwritten in the slice of lines. */
  method UpdateConfigField(config: string, field: string, value: string) returns (updated: string)
    ensures updated == Updated(config, field, value)
  {
    hide Matches;
    var parts := Split(config, '\n');
    var lines := new string[|parts|](k requires 0 <= k < |parts| => parts[k]);
    assert lines[..] == parts;
    for i := 0 to lines.Length
      invariant lines[..] == parts
      invariant forall k :: 0 <= k < i ==> !Matches(parts[k], field)
    {
      if Matches(lines[i], field) {
        lines[i] := FieldText(field, value);
        assert lines[..] == parts[i := FieldText(field, value)];
        FirstMatchIs(parts, field, i);
        updated := Join(lines[..], '\n');
        return;
      }
    }
    FirstMatchIs(parts, field, |parts|);
    updated := Join(lines[..], '\n');
  }

  lemma FirstMatchIs(lines: seq<string>, field: string, i: nat)
    requires i <= |lines| && (i < |lines| ==> Matches(lines[i], field))
    requires forall k :: 0 <= k < i ==> !Matches(lines[k], field)
    ensures FirstMatch(lines, field) == i
  {
  }

  /** The first line of a text whose trimmed form starts with the field. */
  predicate IsFirstLine(lines: seq<string>, i: nat, field: string) {
    i < |lines| && field <= TrimSpace(lines[i]) && forall k :: 0 <= k < i ==> !(field <= TrimSpace(lines[k]))
  }

  /** What a rewrite does to a text: line i becomes `field = value` exactly if it is the first
      line of the field; every other line stays, and none is added or lost. */
  lemma FirstLineIsRewritten(config: string, field: string, value: string)
    requires '\n' !in field && '\n' !in value
    ensures var before, after := Split(config, '\n'), Split(Updated(config, field, value), '\n');
            && |after| == |before|
            && (forall i: nat :: i < |before| ==>
                  after[i] == if IsFirstLine(before, i, field) then field + " = " + value else before[i])
            && ((forall i: nat :: !IsFirstLine(before, i, field)) ==> Updated(config, field, value) == config)
  {
    hide TrimSpace;
    var before := Split(config, '\n');
    OtherLinesStay(config, field, value);
    JoinSplit(config, '\n');
    var j := FirstMatch(before, field);
    forall i: nat | i < |before| ensures IsFirstLine(before, i, field) <==> i == j {
      if IsFirstLine(before, i, field) {
        assert forall k :: 0 <= k < i ==> !Matches(before[k], field);
        FirstMatchIs(before, field, i);
      }
      assert i == j ==> Matches(before[j], field);
      assert forall k :: 0 <= k < j ==> !Matches(before[k], field);
    }
    if j < |before| {
      assert IsFirstLine(before, j, field);
    }
  }

  /** No other line changes, and none is added or lost. */
  lemma OtherLinesStay(config: string, field: string, value: string)
    requires '\n' !in field && '\n' !in value
    ensures Split(Updated(config, field, value), '\n') == UpdatedLines(Split(config, '\n'), field, value)
  {
    var lines := Split(config, '\n');
    JoinSplit(config, '\n');
    var updated := UpdatedLines(lines, field, value);
    forall k | 0 <= k < |updated| ensures '\n' !in updated[k] {
    }
    SplitJoin(updated, '\n');
  }

  /** A free field's line, old or new, is of no kind and of no other free field. */
  lemma FreeLine(field: string, line: string)
    requires field in FREE_FIELDS && Matches(line, field)
    ensures KindOf(TrimSpace(line)) == Other
    ensures forall other :: other in FREE_FIELDS && other != field ==> !Matches(line, other)
  {
    var t := TrimSpace(line);
    assert t[0] == field[0] && t[1] == field[1] && t[2] == field[2];
  }

  lemma NewLineMatches(field: string, value: string)
    requires field in FREE_FIELDS
    ensures Matches(FieldText(field, value), field)
  {
    var line := FieldText(field, value);
    assert line[|field| + 1] == '=';
    TrimKeeps(line, |field| + 1);
    assert line[..|field|] == field;
  }

  lemma NoteOfFreeLine(flags: Option<Flags>, line: string)
    requires KindOf(TrimSpace(line)) == Other
    ensures Note(flags, line) == flags
  {
  }

  lemma {:induction false} ScanIgnoresFreeLines(lines: seq<string>, i: nat, line: string)
    requires i < |lines| && KindOf(TrimSpace(lines[i])) == Other && KindOf(TrimSpace(line)) == Other
    ensures Scan(lines[i := line]) == Scan(lines)
    decreases |lines|
  {
    hide Note;
    hide KindOf;
    var n := |lines| - 1;
    if i == n {
      assert lines[i := line][..n] == lines[..n];
      NoteOfFreeLine(Scan(lines[..n]), lines[i]);
      NoteOfFreeLine(Scan(lines[..n]), line);
    } else {
      assert lines[i := line][..n] == lines[..n][i := line];
      ScanIgnoresFreeLines(lines[..n], i, line);
    }
  }

  /** Rewriting an address, DNS or allowed-addresses line never changes the verdict, whatever
      the text was. */
  lemma RewritingKeepsVerdict(config: string, field: string, value: string)
    requires field in FREE_FIELDS && '\n' !in value
    ensures Validate(Updated(config, field, value)) == Validate(config)
  {
    var lines := Split(config, '\n');
    OtherLinesStay(config, field, value);
    var i := FirstMatch(lines, field);
    if i < |lines| {
      NewLineMatches(field, value);
      FreeLine(field, lines[i]);
      FreeLine(field, FieldText(field, value));
      ScanIgnoresFreeLines(lines, i, FieldText(field, value));
    }
  }

  lemma FirstMatchAfter(lines: seq<string>, i: nat, line: string, field: string)
    requires i < |lines| && Matches(lines[i], field) == Matches(line, field)
    ensures FirstMatch(lines[i := line], field) == FirstMatch(lines, field)
  {
    hide Matches;
    FirstMatchIs(lines[i := line], field, FirstMatch(lines, field));
  }

  lemma ChangesCommute(lines: seq<string>, i: nat, x: string, j: nat, y: string)
    requires i < |lines| && j < |lines| && i != j
    ensures lines[i := x][j := y] == lines[j := y][i := x]
  {
  }

  /** A rewrite of one free field leaves the first line of another where it is. */
  lemma OtherFieldStays(lines: seq<string>, f: string, v: string, g: string)
    requires f in FREE_FIELDS && g in FREE_FIELDS && f != g
    ensures FirstMatch(UpdatedLines(lines, f, v), g) == FirstMatch(lines, g)
    ensures FirstMatch(lines, f) < |lines| ==> FirstMatch(lines, f) != FirstMatch(lines, g)
  {
    hide Matches;
    hide FieldText;
    var i := FirstMatch(lines, f);
    if i < |lines| {
      NewLineMatches(f, v);
      FreeLine(f, FieldText(f, v));
      FreeLine(f, lines[i]);
      FirstMatchAfter(lines, i, FieldText(f, v), g);
    }
  }

  lemma LinesCommute(lines: seq<string>, f: string, v: string, g: string, w: string)
    requires f in FREE_FIELDS && g in FREE_FIELDS && f != g
    ensures UpdatedLines(UpdatedLines(lines, f, v), g, w) == UpdatedLines(UpdatedLines(lines, g, w), f, v)
  {
    hide FirstMatch;
    hide FieldText;
    OtherFieldStays(lines, f, v, g);
    OtherFieldStays(lines, g, w, f);
    var i, j := FirstMatch(lines, f), FirstMatch(lines, g);
    if i < |lines| && j < |lines| {
      ChangesCommute(lines, i, FieldText(f, v), j, FieldText(g, w));
    }
  }

  /** Rewrites of different fields commute; of the same field, the last one counts. */
  lemma RewritesCommute(config: string, f: string, v: string, g: string, w: string)
    requires f in FREE_FIELDS && g in FREE_FIELDS && '\n' !in v && '\n' !in w
    ensures f != g ==> Updated(Updated(config, f, v), g, w) == Updated(Updated(config, g, w), f, v)
    ensures f == g ==> Updated(Updated(config, f, v), g, w) == Updated(config, g, w)
  {
    var lines := Split(config, '\n');
    OtherLinesStay(config, f, v);
    OtherLinesStay(config, g, w);
    if f != g {
      LinesCommute(lines, f, v, g, w);
    } else {
      var i := FirstMatch(lines, f);
      NewLineMatches(f, v);
      if i < |lines| {
        FirstMatchAfter(lines, i, FieldText(f, v), f);
        assert lines[i := FieldText(f, v)][i := FieldText(f, w)] == lines[i := FieldText(f, w)];
      }
    }
  }

  lemma FreeTextNoted(flags: Flags, field: string, value: string)
    requires field in FREE_FIELDS
    ensures Note(Some(flags), FieldText(field, value)) == Some(flags)
  {
    NewLineMatches(field, value);
    FreeLine(field, FieldText(field, value));
    NoteOfFreeLine(Some(flags), FieldText(field, value));
  }

  lemma ScanNothing()
    ensures Scan([]) == Some(NO_FLAGS)
  {
  }

  lemma {:induction false} ScanStep(lines: seq<string>, n: nat)
    requires n < |lines|
    ensures Scan(lines[..n + 1]) == Note(Scan(lines[..n]), lines[n])
  {
    assert lines[..n + 1][..n] == lines[..n];
  }

  function EndpointOf(s: Settings): string
    requires s.serverPort >= 0
  {
    s.serverIp + ":" + Digits(s.serverPort)
  }

  /** The generated text of any one-line settings gets exactly the verdict its keys and its
      endpoint deserve. */
  lemma GeneratedVerdict(s: Settings)
    requires s.serverPort >= 0 && IsOneLine(s.privateKey) && IsOneLine(s.serverPublicKey) && IsOneLine(EndpointOf(s))
    requires '\n' !in s.dns && '\n' !in s.allowedIps
    ensures Validate(GenerateConfig(s)) ==
            if !IsValidKey(s.privateKey) then InvalidPrivateKey
            else if !IsValidKey(s.serverPublicKey) then InvalidPublicKey
            else if !EndpointIsValid(EndpointOf(s)) then InvalidEndpoint
            else Valid
  {
    hide Note;
    hide IsValidKey;
    hide EndpointIsValid;
    hide IsSpace;
    var lines := ConfigLines(s);
    assert lines[8] == "Endpoint = " + EndpointOf(s);
    GeneratedLines(s);
    SplitJoin(lines, '\n');
    forall n | 0 <= n < 12 ensures Scan(lines[..n + 1]) == Note(Scan(lines[..n]), lines[n]) {
      ScanStep(lines, n);
    }
    HeadersNoted(NO_FLAGS);
    var f0 := NO_FLAGS.(hasInterface := true);
    PrivateKeyNoted(f0, s.privateKey);
    var f1 := f0.(privateKeyValid := IsValidKey(s.privateKey));
    FreeTextNoted(f1, "DNS", s.dns);
    assert lines[3] == FieldText("DNS", s.dns);
    FixedLinesNoted(f1);
    HeadersNoted(f1);
    var f2 := f1.(hasPeer := true);
    PublicKeyNoted(f2, s.serverPublicKey);
    var f3 := f2.(publicKeyValid := IsValidKey(s.serverPublicKey));
    EndpointNoted(f3, EndpointOf(s));
    var f4 := f3.(endpointValid := EndpointIsValid(EndpointOf(s)));
    FixedLinesNoted(f4);
    FreeTextNoted(f4, "AllowedIPs", s.allowedIps);
    assert lines[9] == FieldText("AllowedIPs", s.allowedIps);
    assert Scan(lines[..0]) == Some(NO_FLAGS);
    assert Scan(lines[..1]) == Some(f0);
    assert Scan(lines[..2]) == Some(f1);
    assert Scan(lines[..6]) == Scan(lines[..5]) == Scan(lines[..4]) == Scan(lines[..3]) == Some(f1);
    assert Scan(lines[..7]) == Some(f2);
    assert Scan(lines[..8]) == Some(f3);
    assert Scan(lines[..12]) == Scan(lines[..11]) == Scan(lines[..10]) == Scan(lines[..9]) == Some(f4);
    assert lines[..12] == lines;
  }

  /** In particular, every usable setting gives a text that passes validation. */
  lemma GeneratedIsValid(s: Settings)
    requires IsUsable(s)
    ensures Validate(GenerateConfig(s)) == Valid
  {
    EndpointText(s.serverIp, s.serverPort);
    ValidKeyText(s.privateKey);
    ValidKeyText(s.serverPublicKey);
    GeneratedVerdict(s);
  }

  lemma GeneratedLines(s: Settings)
    requires s.serverPort >= 0
    requires '\n' !in s.privateKey && '\n' !in s.dns && '\n' !in s.serverPublicKey && '\n' !in s.allowedIps
    requires '\n' !in EndpointOf(s)
    ensures forall k :: 0 <= k < |ConfigLines(s)| ==> '\n' !in ConfigLines(s)[k]
  {
    var lines := ConfigLines(s);
    assert lines[8] == "Endpoint = " + EndpointOf(s);
    forall k | 0 <= k < |lines| ensures '\n' !in lines[k] {
    }
  }

  /** Under the section's header, with no other header in between, there is a line giving `name`
      this value. */
  ghost predicate HasSetting(text: string, section: string, name: string, value: string) {
    var lines := Split(text, '\n');
    exists h: nat, i: nat ::
      && h < i < |lines| && lines[h] == section && lines[i] == name + " = " + value
      && forall k :: h < k < i ==> lines[k] == "" || lines[k][0] != '['
  }

  /** The generated text has every setting under its name and in its section. */
  lemma GeneratedSettings(s: Settings)
    requires s.serverPort >= 0
    requires '\n' !in s.privateKey && '\n' !in s.dns && '\n' !in s.serverPublicKey && '\n' !in s.allowedIps
    requires '\n' !in EndpointOf(s)
    ensures var text := GenerateConfig(s);
            && HasSetting(text, "[Interface]", "PrivateKey", s.privateKey)
            && HasSetting(text, "[Interface]", "Address", "10.100.0.2/32")
            && HasSetting(text, "[Interface]", "DNS", s.dns)
            && HasSetting(text, "[Interface]", "MTU", "1420")
            && HasSetting(text, "[Peer]", "PublicKey", s.serverPublicKey)
            && HasSetting(text, "[Peer]", "Endpoint", s.serverIp + ":" + Digits(s.serverPort))
            && HasSetting(text, "[Peer]", "AllowedIPs", s.allowedIps)
            && HasSetting(text, "[Peer]", "PersistentKeepalive", "25")
  {
    GeneratedLines(s);
    var text := GenerateConfig(s);
    SplitJoin(ConfigLines(s), '\n');
    LinesOfSettings(s);
    hide Digits;
    hide Split;
    hide Join;
    hide ConfigLines;
    hide HasSetting;
    SettingAt(s, text, 0, 1, "PrivateKey", s.privateKey);
    SettingAt(s, text, 0, 2, "Address", "10.100.0.2/32");
    SettingAt(s, text, 0, 3, "DNS", s.dns);
    SettingAt(s, text, 0, 4, "MTU", "1420");
    SettingAt(s, text, 6, 7, "PublicKey", s.serverPublicKey);
    SettingAt(s, text, 6, 8, "Endpoint", s.serverIp + ":" + Digits(s.serverPort));
    SettingAt(s, text, 6, 9, "AllowedIPs", s.allowedIps);
    SettingAt(s, text, 6, 10, "PersistentKeepalive", "25");
  }

  lemma HeadersOfSettings(s: Settings)
    requires s.serverPort >= 0
    ensures var lines := ConfigLines(s);
            |lines| == 12 && lines[0] == "[Interface]" && lines[6] == "[Peer]"
    ensures forall k :: 0 <= k < 12 && k != 0 && k != 6 ==> ConfigLines(s)[k] == "" || ConfigLines(s)[k][0] != '['
  {
    hide Digits;
    var lines := ConfigLines(s);
    assert lines[1][0] == 'P' && lines[2][0] == 'A' && lines[3][0] == 'D' && lines[4][0] == 'M' && lines[7][0] == 'P';
    assert lines[8][0] == 'E' && lines[9][0] == 'A' && lines[10][0] == 'P';
  }

  lemma LinesOfSettings(s: Settings)
    requires s.serverPort >= 0
    ensures var lines := ConfigLines(s);
            && |lines| == 12
            && lines[1] == "PrivateKey" + " = " + s.privateKey
            && lines[2] == "Address" + " = " + "10.100.0.2/32"
            && lines[3] == "DNS" + " = " + s.dns
            && lines[4] == "MTU" + " = " + "1420"
            && lines[7] == "PublicKey" + " = " + s.serverPublicKey
            && lines[8] == "Endpoint" + " = " + (s.serverIp + ":" + Digits(s.serverPort))
            && lines[9] == "AllowedIPs" + " = " + s.allowedIps
            && lines[10] == "PersistentKeepalive" + " = " + "25"
  {
    hide Digits;
    var lines := ConfigLines(s);
    assert lines[8] == "Endpoint = " + (s.serverIp + ":" + Digits(s.serverPort));
  }

  lemma SettingAt(s: Settings, text: string, h: nat, i: nat, name: string, value: string)
    requires s.serverPort >= 0 && Split(text, '\n') == ConfigLines(s) && |ConfigLines(s)| == 12
    requires h in {0, 6} && h < i < h + 6 && ConfigLines(s)[i] == name + " = " + value
    ensures HasSetting(text, if h == 0 then "[Interface]" else "[Peer]", name, value)
  {
    hide Split;
    HeadersOfSettings(s);
    hide ConfigLines;
    assert ConfigLines(s)[h] == if h == 0 then "[Interface]" else "[Peer]";
  }
}
