/** internal/rotator/infrastructure/remote/wireguard.go: `parseWireGuardPeers`, the reader of
    `wg show <if> dump`. */
module DumpFormat {
  import opened Text
  import opened WireGuard

  datatype PeerStatus = PeerStatus(
    key: string,
    endpoint: Option<string>,
    ips: seq<string>,
    handshake: Option<int>,
    rx: int,
    tx: int,
    keepalive: int)

  function IntOrZero(s: string): int {
    var v := ParseInt64(s);
    if v.Some? then v.value else 0
  }

  /** A column, or the given default when the line is too short. */
  function Column(parts: seq<string>, k: nat, default: string): string {
    if k < |parts| then parts[k] else default
  }

  /** One turn of the loop: blank lines and lines of fewer than three fields are skipped. */
  function ParseLine(line: string): Option<PeerStatus> {
    var parts := Fields(TrimSpace(line));
    if |parts| < 3 then None
    else Some(PeerStatus(
                parts[0],
                if parts[2] != NONE then Some(parts[2]) else None,
                if |parts| > 3 then Split(parts[3], ',') else [],
                if Column(parts, 4, "0") != "0" then ParseInt64(parts[4]) else None,
                IntOrZero(Column(parts, 5, "0")),
                IntOrZero(Column(parts, 6, "0")),
                IntOrZero(Column(parts, 7, "0"))))
  }

  function ParseLines(lines: seq<string>): seq<PeerStatus> {
    if lines == [] then []
    else
      var last := ParseLine(lines[|lines| - 1]);
      ParseLines(lines[..|lines| - 1]) + if last.Some? then [last.value] else []
  }

  /** `parseWireGuardPeers`. */
  method ParseWireGuardPeers(output: string) returns (peers: seq<PeerStatus>)
    ensures peers == ParseLines(Split(output, '\n'))
  {
    hide ParseLine;
    peers := [];
    var lines := Split(output, '\n');
    for k := 0 to |lines|
      invariant peers == ParseLines(lines[..k])
    {
      assert lines[..k + 1][..k] == lines[..k];
      var peer := ParseLine(lines[k]);
      if peer.Some? {
        peers := peers + [peer.value];
      }
    }
    assert lines[..|lines|] == lines;
  }

  // ---- printing ----

  /** What a peer's dump line can show. */
  predicate IsPrintable(p: PeerStatus) {
    && IsWord(p.key)
    && (p.endpoint.Some? ==> IsWord(p.endpoint.value) && p.endpoint.value != NONE)
    && (forall k :: 0 <= k < |p.ips| ==> IsWord(p.ips[k]) && ',' !in p.ips[k])
    && (p.handshake.Some? ==> 0 < p.handshake.value < 0x8000_0000_0000_0000)
    && 0 <= p.rx < 0x8000_0000_0000_0000
    && 0 <= p.tx < 0x8000_0000_0000_0000
    && 0 <= p.keepalive < 0x1_0000
  }

  function Columns(p: PeerStatus, psk: string): seq<string>
    requires IsPrintable(p)
  {
    [ p.key, psk, if p.endpoint.Some? then p.endpoint.value else NONE,
      if p.ips == [] then NONE else Join(p.ips, ','),
      if p.handshake.Some? then Digits(p.handshake.value) else "0",
      Digits(p.rx), Digits(p.tx), if p.keepalive == 0 then "off" else Digits(p.keepalive) ]
  }

  /** A dump line: tab-separated columns. */
  function PrintRow(p: PeerStatus, psk: string): string
    requires IsPrintable(p)
  {
    Join(Columns(p, psk), '\t')
  }

  lemma {:induction false} WordsJoin(words: seq<string>, sep: char)
    requires words != [] && !IsSpace(sep)
    requires forall i :: 0 <= i < |words| ==> IsWord(words[i])
    ensures IsWord(Join(words, sep))
  {
    assert IsWord(words[0]);
    if |words| > 1 {
      WordsJoin(words[1..], sep);
    }
  }

  lemma ColumnsAreWords(p: PeerStatus, psk: string)
    requires IsPrintable(p) && IsWord(psk)
    ensures forall k :: 0 <= k < 8 ==> IsWord(Columns(p, psk)[k])
  {
    hide Digits;
    if p.ips != [] {
      WordsJoin(p.ips, ',');
    }
    assert IsWord(NONE) && IsWord("0") && IsWord("off");
  }

  /** Trimming a line made of words changes nothing. */
  lemma TrimWords(words: seq<string>, sep: char)
    requires words != [] && forall i :: 0 <= i < |words| ==> IsWord(words[i])
    ensures TrimSpace(Join(words, sep)) == Join(words, sep)
  {
    hide Join;
    hide IsSpace;
    JoinEnds(words, sep);
  }

  lemma FieldsOfWords(words: seq<string>)
    requires words != [] && forall i :: 0 <= i < |words| ==> IsWord(words[i])
    ensures Fields(TrimSpace(Join(words, '\t'))) == words
  {
    hide Join;
    hide Fields;
    hide TrimSpace;
    TrimWords(words, '\t');
    FieldsJoin(words, '\t');
  }

  lemma NumberColumns(p: PeerStatus)
    requires IsPrintable(p)
    ensures p.handshake.Some? ==> Digits(p.handshake.value) != "0"
                                  && ParseInt64(Digits(p.handshake.value)) == p.handshake
    ensures IntOrZero(Digits(p.rx)) == p.rx && IntOrZero(Digits(p.tx)) == p.tx
    ensures IntOrZero(if p.keepalive == 0 then "off" else Digits(p.keepalive)) == p.keepalive
  {
    hide Digits;
    if p.handshake.Some? {
      ParseOfDigits(p.handshake.value);
      assert ParseInt64("0") == Some(0) by {
        assert AllDigits("0") && Number("0") == 0;
      }
    }
    ParseOfDigits(p.rx);
    ParseOfDigits(p.tx);
    ParseOfDigits(p.keepalive);
    assert ParseInt64("off") == None by {
      assert !IsDigit("off"[0]);
    }
  }

  /** What the parser makes of a printed peer: the text for no addresses becomes an address. */
  function ReadBack(p: PeerStatus): PeerStatus {
    if p.ips == [] then p.(ips := [NONE]) else p
  }

  function ReadBackAll(peers: seq<PeerStatus>): seq<PeerStatus> {
    seq(|peers|, k requires 0 <= k < |peers| => ReadBack(peers[k]))
  }

  lemma ParsePrinted(p: PeerStatus, psk: string)
    requires IsPrintable(p) && IsWord(psk)
    ensures ParseLine(PrintRow(p, psk)) == Some(ReadBack(p))
  {
    hide Digits;
    hide Join;
    hide Split;
    hide Fields;
    hide TrimSpace;
    hide IntOrZero;
    hide ParseInt64;
    hide IsWord;
    ColumnsAreWords(p, psk);
    FieldsOfWords(Columns(p, psk));
    NumberColumns(p);
    if p.ips == [] {
      SplitOne(NONE, ',');
    } else {
      SplitJoin(p.ips, ',');
    }
  }

  /** The dump of a list of peers: one line each, ending in a newline. */
  function PrintRows(peers: seq<PeerStatus>, psks: seq<string>): seq<string>
    requires |peers| == |psks| && forall k :: 0 <= k < |peers| ==> IsPrintable(peers[k])
  {
    seq(|peers|, k requires 0 <= k < |peers| => PrintRow(peers[k], psks[k]))
  }

  lemma {:induction false} ParseRows(peers: seq<PeerStatus>, psks: seq<string>)
    requires |peers| == |psks|
    requires forall k :: 0 <= k < |peers| ==> IsPrintable(peers[k]) && IsWord(psks[k])
    ensures ParseLines(PrintRows(peers, psks)) == ReadBackAll(peers)
  {
    hide ReadBack;
    hide ParseLine;
    hide PrintRow;
    hide IsPrintable;
    hide IsWord;
    if peers != [] {
      var n := |peers| - 1;
      ParseRows(peers[..n], psks[..n]);
      assert PrintRows(peers, psks)[..n] == PrintRows(peers[..n], psks[..n]);
      ParsePrinted(peers[n], psks[n]);
      assert ReadBackAll(peers) == ReadBackAll(peers[..n]) + [ReadBack(peers[n])];
    }
  }

  lemma {:induction false} NoNewline(words: seq<string>)
    requires forall i :: 0 <= i < |words| ==> IsWord(words[i])
    ensures '\n' !in Join(words, '\t')
  {
    forall i | 0 <= i < |words| ensures '\n' !in words[i] {
      assert IsWord(words[i]);
    }
    if |words| > 1 {
      NoNewline(words[1..]);
    }
  }

  lemma {:induction false} ParseAppended(a: seq<string>, b: seq<string>)
    ensures ParseLines(a + b) == ParseLines(a) + ParseLines(b)
  {
    hide ParseLine;
    if b == [] {
      assert a + b == a;
    } else {
      var n := |b| - 1;
      assert (a + b)[..|a + b| - 1] == a + b[..n];
      ParseAppended(a, b[..n]);
    }
  }

  /** Splitting a printed dump gives back its lines and a last empty one, which is skipped. */
  lemma ParseDump(lines: seq<string>)
    requires forall k :: 0 <= k < |lines| ==> '\n' !in lines[k]
    ensures ParseLines(Split(Join(lines + [""], '\n'), '\n')) == ParseLines(lines)
  {
    hide Join;
    hide Split;
    SplitJoin(lines + [""], '\n');
    ParseAppended(lines, [""]);
    assert ParseLine("") == None;
    assert [""][..0] == [];
  }

  /** Parsing undoes printing, with the same keys, endpoints, address lists, handshakes, counters
      and keepalives in the same order, exactly when no address list is empty; an empty one
      comes back as the one bogus address `(none)`. */
  lemma ParsingUndoesPrinting(peers: seq<PeerStatus>, psks: seq<string>)
    requires |peers| == |psks|
    requires forall k :: 0 <= k < |peers| ==> IsPrintable(peers[k]) && IsWord(psks[k])
    ensures var parsed := ParseLines(Split(Join(PrintRows(peers, psks) + [""], '\n'), '\n'));
            && parsed == ReadBackAll(peers)
            && (parsed == peers <==> forall k :: 0 <= k < |peers| ==> peers[k].ips != [])
  {
    hide ParseLines;
    hide Join;
    hide Split;
    hide IsPrintable;
    hide IsWord;
    var lines := PrintRows(peers, psks);
    forall k | 0 <= k < |lines| ensures '\n' !in lines[k] {
      RowHasNoNewline(peers[k], psks[k]);
    }
    ParseDump(lines);
    ParseRows(peers, psks);
    if k :| 0 <= k < |peers| && peers[k].ips == [] {
      assert ReadBackAll(peers)[k].ips == [NONE];
    }
  }

  /** The first line of a real dump: private key, public key, port, firewall mark. */
  function PrintInterface(privateKey: string, publicKey: string, port: string, fwmark: string): string {
    Join([privateKey, publicKey, port, fwmark], '\t')
  }

  /** The interface line is not skipped: it becomes a peer whose key is the interface's
      private key, ahead of the real ones. */
  lemma InterfaceParsedAsPeer(
    privateKey: string, publicKey: string, port: string, fwmark: string,
    peers: seq<PeerStatus>, psks: seq<string>)
    requires IsWord(privateKey) && IsWord(publicKey) && IsWord(port) && IsWord(fwmark)
    requires port != NONE && ',' !in fwmark
    requires |peers| == |psks|
    requires forall k :: 0 <= k < |peers| ==> IsPrintable(peers[k]) && IsWord(psks[k])
    ensures var lines := [PrintInterface(privateKey, publicKey, port, fwmark)] + PrintRows(peers, psks);
            ParseLines(Split(Join(lines + [""], '\n'), '\n'))
            == [PeerStatus(privateKey, Some(port), [fwmark], None, 0, 0, 0)] + ReadBackAll(peers)
  {
    hide Join;
    hide Split;
    hide IsPrintable;
    hide IsWord;
    hide Fields;
    hide TrimSpace;
    hide PrintRow;
    var first := PrintInterface(privateKey, publicKey, port, fwmark);
    var rows := PrintRows(peers, psks);
    var lines := [first] + rows;
    var words := [privateKey, publicKey, port, fwmark];
    NoNewline(words);
    forall k | 0 <= k < |rows| ensures '\n' !in rows[k] {
      RowHasNoNewline(peers[k], psks[k]);
    }
    ParseDump(lines);
    ParseAppended([first], rows);
    ParseRows(peers, psks);
    FieldsOfWords(words);
    SplitOne(fwmark, ',');
    assert [first][..0] == [];
    assert ParseLines([first]) == [PeerStatus(privateKey, Some(port), [fwmark], None, 0, 0, 0)] by {
      assert IntOrZero("0") == 0 by {
        assert AllDigits("0") && Number("0") == 0;
      }
    }
  }

  lemma RowHasNoNewline(p: PeerStatus, psk: string)
    requires IsPrintable(p) && IsWord(psk)
    ensures '\n' !in PrintRow(p, psk)
  {
    hide IsPrintable;
    hide IsWord;
    hide Join;
    ColumnsAreWords(p, psk);
    NoNewline(Columns(p, psk));
  }

  /** A line of words: fewer than three make no peer, three make one without addresses. */
  lemma ShortRows(words: seq<string>)
    requires words != [] && forall i :: 0 <= i < |words| ==> IsWord(words[i])
    ensures ParseLine(Join(words, '\t')).Some? <==> |words| >= 3
    ensures |words| == 3 && words[2] != NONE ==>
              ParseLine(Join(words, '\t')) == Some(PeerStatus(words[0], Some(words[2]), [], None, 0, 0, 0))
  {
    hide Join;
    hide Fields;
    hide TrimSpace;
    FieldsOfWords(words);
    assert IntOrZero("0") == 0 by {
      assert AllDigits("0") && Number("0") == 0;
    }
  }

  /** The columns of a full line, and what is made of numbers that are none. */
  lemma FullRow(key: string, psk: string, endpoint: string, ip: string, handshake: nat, rx: nat, tx: nat, keepalive: string)
    requires IsWord(key) && IsWord(psk) && IsWord(endpoint) && endpoint != NONE && IsWord(ip) && ',' !in ip
    requires 0 < handshake < 0x8000_0000_0000_0000 && rx < 0x8000_0000_0000_0000 && tx < 0x8000_0000_0000_0000
    requires IsWord(keepalive) && !IsDigit(keepalive[0]) && keepalive[0] !in "+-"
    ensures var words := [key, psk, endpoint, ip, Digits(handshake), Digits(rx), Digits(tx), keepalive];
            ParseLine(Join(words, '\t')) == Some(PeerStatus(key, Some(endpoint), [ip], Some(handshake), rx, tx, 0))
  {
    hide Join;
    hide Split;
    hide Fields;
    hide TrimSpace;
    hide Digits;
    hide IsWord;
    var words := [key, psk, endpoint, ip, Digits(handshake), Digits(rx), Digits(tx), keepalive];
    FieldsOfWords(words);
    SplitOne(ip, ',');
    ParseOfDigits(handshake);
    ParseOfDigits(rx);
    ParseOfDigits(tx);
    NumberOfDigits(handshake);
    assert AllDigits("0") && Number("0") == 0;
    assert ParseInt64(keepalive).None?;
  }
}
