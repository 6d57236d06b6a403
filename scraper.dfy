/** The Linux network-devices scraper: it reads the text of a
    `/proc/net/dev`-style table and returns the received and transmitted
    byte counters of one interface. */
module Scraper {
  import opened Base
  import opened Strconv
  import opened Text

  const DEFAULT_INTERFACE: string := "eth0"

  /** The counters scraped for one interface. */
  datatype NetworkStats = NetworkStats(receivedBytes: uint64, transmittedBytes: uint64)

  /** The scraper is configured with the name of the interface it looks for. */
  datatype LinuxNetworkDevicesFileScraper = LinuxNetworkDevicesFileScraper(interfaceName: string)
  {
    /** What a matching line must contain: the name followed by a colon. */
    function Pattern(): string {
      interfaceName + ":"
    }

    /** The outcome of scraping `data`: the counters of the first line that
        contains the pattern, or, when no line does, zero counters and the
        not-found error. */
    function Stats(data: string): Outcome<NetworkStats> {
      var lines := Lines(data);
      var k := FirstMatch(lines, Pattern());
      if k == |lines| then Returned(NetworkStats(0, 0), Some(NotFound(interfaceName)))
      else StatsOfLine(lines[k])
    }

    /** `Scrape`: reads the lines one by one and returns at the first one
        that contains the pattern; lines after it are never looked at. */
    method Scrape(data: string) returns (r: Outcome<NetworkStats>)
      ensures r == Stats(data)
    {
      var lines := Lines(data);
      var pattern := Pattern();
      var i := 0;
      while i < |lines|
        invariant 0 <= i <= |lines|
        invariant forall j :: 0 <= j < i ==> !Contains(lines[j], pattern)
      {
        if Contains(lines[i], pattern) {
          FirstMatchIs(lines, pattern, i);
          return StatsOfLine(lines[i]);
        }
        i := i + 1;
      }
      FirstMatchIs(lines, pattern, i);
      return Returned(NetworkStats(0, 0), Some(NotFound(interfaceName)));
    }
  }

  /** `NewLinuxNetworkDevicesFileScraperWithInterface`: an empty name is
      replaced by the default interface (by calling itself with it); any
      other name is kept verbatim. */
  function NewWithInterface(name: string): (s: LinuxNetworkDevicesFileScraper)
    decreases if name == "" then 1 else 0
    ensures s.interfaceName == if name == "" then DEFAULT_INTERFACE else name
  {
    if name == "" then NewWithInterface(DEFAULT_INTERFACE)
    else LinuxNetworkDevicesFileScraper(name)
  }

  /** `NewLinuxNetworkDevicesFileScraper`: the scraper for the default
      interface. */
  function NewDefault(): (s: LinuxNetworkDevicesFileScraper)
    ensures s.interfaceName == DEFAULT_INTERFACE
  {
    NewWithInterface(DEFAULT_INTERFACE)
  }

  /** The empty name, "eth0" and the no-argument constructor all give the
      same scraper, so they scrape any text alike. */
  lemma EmptyNameMeansDefault(data: string)
    ensures NewWithInterface("") == NewWithInterface(DEFAULT_INTERFACE) == NewDefault()
    ensures NewWithInterface("").Stats(data) == NewDefault().Stats(data)
  {
  }

  /** The error returned when no line mentions the interface. */
  function NotFound(name: string): string {
    "interface '" + name + "' not found in file info"
  }

  /** The message of Go's runtime panic for `fields[index]` on a slice of
      `length` elements. */
  function IndexPanic(index: nat, length: nat): string
    requires index < UINT64_MODULUS && length < UINT64_MODULUS
  {
    "runtime error: index out of range [" + FormatUint(index) + "] with length " + FormatUint(length)
  }

  /** The index of the first line that contains `pat`, or `|lines|`. */
  function FirstMatch(lines: seq<string>, pat: string): (k: nat)
    decreases |lines|
    ensures k <= |lines|
    ensures k < |lines| ==> Contains(lines[k], pat)
    ensures forall j :: 0 <= j < k ==> !Contains(lines[j], pat)
  {
    if lines == [] then 0
    else if Contains(lines[0], pat) then 0
    else 1 + FirstMatch(lines[1..], pat)
  }

  /** The counters on a matching line: field 1 holds the received bytes and
      field 9 the transmitted bytes. A field that does not parse gives the
      parser's fallback value and no error; fewer than ten fields make the
      indexing panic (at index 1 first, then at index 9). */
  function StatsOfLine(line: string): (r: Outcome<NetworkStats>)
    ensures r.Returned? <==> |Fields(line)| >= 10
    ensures r.Returned? ==> r.err.None?
    ensures r.Returned? ==> r.value.receivedBytes == ParseUint(Fields(line)[1]).value
    ensures r.Returned? ==> r.value.transmittedBytes == ParseUint(Fields(line)[9]).value
    ensures |Fields(line)| < 2 ==> r == Panicked(IndexPanic(1, |Fields(line)|))
    ensures 2 <= |Fields(line)| < 10 ==> r == Panicked(IndexPanic(9, |Fields(line)|))
  {
    var fields := Fields(line);
    if |fields| < 2 then Panicked(IndexPanic(1, |fields|))
    else if |fields| < 10 then Panicked(IndexPanic(9, |fields|))
    else
      Returned(NetworkStats(ParseUint(fields[1]).value, ParseUint(fields[9]).value), None)
  }

  /** Scraping finds the first line that contains the pattern: if line `k`
      contains it and no earlier line does, the result is read off line `k`. */
  lemma ScrapeReadsFirstMatch(s: LinuxNetworkDevicesFileScraper, data: string, k: nat)
    requires k < |Lines(data)| && Contains(Lines(data)[k], s.Pattern())
    requires forall j :: 0 <= j < k ==> !Contains(Lines(data)[j], s.Pattern())
    ensures s.Stats(data) == StatsOfLine(Lines(data)[k])
  {
    FirstMatchIs(Lines(data), s.Pattern(), k);
  }

  /** `FirstMatch` is the only index at which a line contains the pattern
      and no earlier line does. */
  lemma FirstMatchIs(lines: seq<string>, pat: string, k: nat)
    requires k <= |lines|
    requires k < |lines| ==> Contains(lines[k], pat)
    requires forall j :: 0 <= j < k ==> !Contains(lines[j], pat)
    ensures FirstMatch(lines, pat) == k
  {
  }

  /** Scraping fails exactly when no line contains the pattern, and then it
      returns zero counters and the not-found error. */
  lemma ScrapeNotFound(s: LinuxNetworkDevicesFileScraper, data: string)
    ensures s.Stats(data).Returned? && s.Stats(data).err.Some?
        <==> forall j :: 0 <= j < |Lines(data)| ==> !Contains(Lines(data)[j], s.Pattern())
    ensures s.Stats(data).Returned? && s.Stats(data).err.Some?
        ==> s.Stats(data) == Returned(NetworkStats(0, 0), Some(NotFound(s.interfaceName)))
  {
    var lines := Lines(data);
    var k := FirstMatch(lines, s.Pattern());
    if k < |lines| {
      var r := StatsOfLine(lines[k]);
      assert s.Stats(data) == r;
      assert r.Returned? ==> r.err.None?;
      assert Contains(lines[k], s.Pattern());
    }
  }

  /** Whatever follows a text that already holds a matching line does not
      change what is scraped. */
  lemma ScrapeIgnoresLaterText(s: LinuxNetworkDevicesFileScraper, a: string, b: string)
    requires a == [] || a[|a| - 1] == '\n'
    requires FirstMatch(Lines(a), s.Pattern()) < |Lines(a)|
    ensures s.Stats(a + b) == s.Stats(a)
  {
    LinesAppend(a, b);
    var k := FirstMatch(Lines(a), s.Pattern());
    ScrapeReadsFirstMatch(s, a + b, k);
  }

  /** A counter field that is not a numeral reads as 0 without an error
      when its first character is not a digit, or when it has at most 19
      characters (too few to overflow before the first non-digit). */
  lemma NonNumericFieldReadsZero(line: string)
    requires |Fields(line)| >= 10
    ensures StatsOfLine(line).Returned? && StatsOfLine(line).err.None?
    ensures !IsDigit(Fields(line)[1][0]) ==> StatsOfLine(line).value.receivedBytes == 0
    ensures !IsDigit(Fields(line)[9][0]) ==> StatsOfLine(line).value.transmittedBytes == 0
    ensures |Fields(line)[1]| <= 19 && !AllDigits(Fields(line)[1]) ==>
      StatsOfLine(line).value.receivedBytes == 0
    ensures |Fields(line)[9]| <= 19 && !AllDigits(Fields(line)[9]) ==>
      StatsOfLine(line).value.transmittedBytes == 0
  {
    var fields := Fields(line);
    if !IsDigit(fields[1][0]) {
      ParseLeadingNonDigit(fields[1]);
    }
    if !IsDigit(fields[9][0]) {
      ParseLeadingNonDigit(fields[9]);
    }
    if |fields[1]| <= 19 && !AllDigits(fields[1]) {
      ParseShortNonNumeral(fields[1]);
    }
    if |fields[9]| <= 19 && !AllDigits(fields[9]) {
      ParseShortNonNumeral(fields[9]);
    }
  }

  // ---------------------------------------------------------------------
  // The kernel's table, rendered

  /** The decimal numerals of `counters`. */
  function FormatAll(counters: seq<uint64>): (ws: seq<string>)
    ensures |ws| == |counters|
    ensures forall k :: 0 <= k < |ws| ==> ws[k] == FormatUint(counters[k])
  {
    if counters == [] then [] else [FormatUint(counters[0])] + FormatAll(counters[1..])
  }

  /** A string of `n` blanks. */
  function Blanks(n: nat): (sp: string)
    ensures |sp| == n && forall i :: 0 <= i < n ==> sp[i] == ' '
  {
    if n == 0 then [] else [' '] + Blanks(n - 1)
  }

  /** The counter columns of a table row. The kernel right-aligns each
      counter in a fixed-width column, so every numeral is preceded by one
      blank and `pads[k]` further blanks. */
  function Columns(counters: seq<uint64>, pads: seq<nat>): string
    requires |pads| == |counters|
  {
    if counters == [] then []
    else Blanks(1 + pads[0]) + (FormatUint(counters[0]) + Columns(counters[1..], pads[1..]))
  }

  /** A row of the kernel's device table: the name right-aligned by
      `indent` blanks and followed by a colon, then the counter columns,
      where the received bytes come first and the transmitted bytes ninth. */
  function DeviceLine(indent: nat, name: string, pads: seq<nat>, counters: seq<uint64>): string
    requires |pads| == |counters|
  {
    Blanks(indent) + ((name + ":") + Columns(counters, pads))
  }

  /** A decimal numeral is a word. */
  lemma NumeralIsWord(n: uint64)
    ensures IsWord(FormatUint(n))
  {
    var w := FormatUint(n);
    assert forall i :: 0 <= i < |w| ==> IsDigit(w[i]);
  }

  /** Non-empty counter columns start with a blank. */
  lemma ColumnsStartBlank(counters: seq<uint64>, pads: seq<nat>)
    requires |pads| == |counters|
    ensures Columns(counters, pads) == [] || Columns(counters, pads)[0] == ' '
  {
    if counters != [] {
      var gap := Blanks(1 + pads[0]);
      assert Columns(counters, pads)[0] == gap[0];
    }
  }

  /** The counter columns split into the counters' numerals. */
  lemma {:induction false} ColumnsFields(counters: seq<uint64>, pads: seq<nat>)
    requires |pads| == |counters|
    ensures Fields(Columns(counters, pads)) == FormatAll(counters)
    decreases |counters|
  {
    if counters != [] {
      var w := FormatUint(counters[0]);
      var rest := Columns(counters[1..], pads[1..]);
      ColumnsFields(counters[1..], pads[1..]);
      ColumnsStartBlank(counters[1..], pads[1..]);
      NumeralIsWord(counters[0]);
      FieldsOfWord(w, rest);
      FieldsSkipSpaces(Blanks(1 + pads[0]), w + rest);
      assert FormatAll(counters) == [w] + FormatAll(counters[1..]);
    }
  }

  /** The counter columns hold no newline. */
  lemma {:induction false} ColumnsAreLine(counters: seq<uint64>, pads: seq<nat>)
    requires |pads| == |counters|
    ensures IsLine(Columns(counters, pads))
    decreases |counters|
  {
    if counters != [] {
      var gap := Blanks(1 + pads[0]);
      var w := FormatUint(counters[0]);
      var rest := Columns(counters[1..], pads[1..]);
      ColumnsAreLine(counters[1..], pads[1..]);
      assert forall i :: 0 <= i < |w| ==> IsDigit(w[i]);
      assert IsLine(w + rest) by {
        assert forall i :: 0 <= i < |w + rest| ==> (w + rest)[i] == if i < |w| then w[i] else rest[i - |w|];
      }
      var c := gap + (w + rest);
      assert forall i :: 0 <= i < |c| ==> c[i] == if i < |gap| then ' ' else (w + rest)[i - |gap|];
    }
  }

  /** The fields of a table row: the name with its colon, then the
      counters' numerals, whatever the padding. */
  lemma RowFields(indent: nat, name: string, pads: seq<nat>, counters: seq<uint64>)
    requires forall i :: 0 <= i < |name| ==> !IsSpace(name[i])
    requires |pads| == |counters|
    ensures Fields(DeviceLine(indent, name, pads, counters)) == [name + ":"] + FormatAll(counters)
  {
    var p := name + ":";
    var cols := Columns(counters, pads);
    assert IsWord(p) by {
      assert forall i :: 0 <= i < |name| ==> p[i] == name[i];
    }
    ColumnsFields(counters, pads);
    ColumnsStartBlank(counters, pads);
    FieldsOfWord(p, cols);
    FieldsSkipSpaces(Blanks(indent), p + cols);
  }

  /** Scraping a table row gives back the first and the ninth counter. */
  lemma DeviceLineStats(indent: nat, name: string, pads: seq<nat>, counters: seq<uint64>)
    requires forall i :: 0 <= i < |name| ==> !IsSpace(name[i])
    requires |pads| == |counters| && |counters| >= 9
    ensures StatsOfLine(DeviceLine(indent, name, pads, counters))
         == Returned(NetworkStats(counters[0], counters[8]), None)
  {
    RowFields(indent, name, pads, counters);
    ParseFormat(counters[0]);
    ParseFormat(counters[8]);
  }

  /** A row of the table is a single line. */
  lemma RowHasNoNewline(indent: nat, name: string, pads: seq<nat>, counters: seq<uint64>)
    requires forall i :: 0 <= i < |name| ==> !IsSpace(name[i])
    requires |pads| == |counters|
    ensures IsLine(DeviceLine(indent, name, pads, counters))
  {
    var row := DeviceLine(indent, name, pads, counters);
    var p := name + ":";
    var cols := Columns(counters, pads);
    ColumnsAreLine(counters, pads);
    assert IsSpace('\n');
    assert forall i :: 0 <= i < |row| ==>
      row[i] == if i < indent then ' ' else if i < indent + |p| then p[i - indent] else cols[i - indent - |p|];
    assert forall i :: 0 <= i < |p| ==> p[i] == if i < |name| then name[i] else ':';
  }

  /** A row contains its own name followed by a colon. */
  lemma RowMentionsName(indent: nat, name: string, pads: seq<nat>, counters: seq<uint64>)
    requires |pads| == |counters|
    ensures Contains(DeviceLine(indent, name, pads, counters), name + ":")
  {
    var row := DeviceLine(indent, name, pads, counters);
    var p := name + ":";
    assert row[indent..indent + |p|] == p;
    assert OccursAt(row, p, indent);
  }

  /** A whole table: a row for the interface, preceded by rows none of
      which mentions it, scrapes to that row's received and transmitted
      bytes, whatever rows follow. */
  lemma ScrapeDeviceTable(s: LinuxNetworkDevicesFileScraper, rows: seq<string>, k: nat,
                          indent: nat, pads: seq<nat>, counters: seq<uint64>)
    requires forall i :: 0 <= i < |s.interfaceName| ==> !IsSpace(s.interfaceName[i])
    requires |pads| == |counters| && |counters| >= 9
    requires forall j :: 0 <= j < |rows| ==> IsLine(rows[j])
    requires k < |rows| && rows[k] == DeviceLine(indent, s.interfaceName, pads, counters)
    requires forall j :: 0 <= j < k ==> !Contains(rows[j], s.Pattern())
    ensures s.Stats(Unlines(rows)) == Returned(NetworkStats(counters[0], counters[8]), None)
  {
    RowMentionsName(indent, s.interfaceName, pads, counters);
    DeviceLineStats(indent, s.interfaceName, pads, counters);
    ScrapeTable(s, rows, k);
  }

  /** One table, two interfaces: each scraper reads its own row, as long
      as the first row does not also mention the second interface. */
  lemma ScrapeEachInterface(a: string, b: string, ia: nat, pa: seq<nat>, ca: seq<uint64>,
                            ib: nat, pb: seq<nat>, cb: seq<uint64>)
    requires forall i :: 0 <= i < |a| ==> !IsSpace(a[i])
    requires forall i :: 0 <= i < |b| ==> !IsSpace(b[i])
    requires |pa| == |ca| >= 9 && |pb| == |cb| >= 9
    requires !Contains(DeviceLine(ia, a, pa, ca), b + ":")
    ensures var data := Unlines([DeviceLine(ia, a, pa, ca), DeviceLine(ib, b, pb, cb)]);
      LinuxNetworkDevicesFileScraper(a).Stats(data) == Returned(NetworkStats(ca[0], ca[8]), None)
      && LinuxNetworkDevicesFileScraper(b).Stats(data) == Returned(NetworkStats(cb[0], cb[8]), None)
  {
    var rows := [DeviceLine(ia, a, pa, ca), DeviceLine(ib, b, pb, cb)];
    RowHasNoNewline(ia, a, pa, ca);
    RowHasNoNewline(ib, b, pb, cb);
    ScrapeDeviceTable(LinuxNetworkDevicesFileScraper(a), rows, 0, ia, pa, ca);
    ScrapeDeviceTable(LinuxNetworkDevicesFileScraper(b), rows, 1, ib, pb, cb);
  }

  /** Matching is by substring, not by the first field: a row for "veth0"
      placed before the "eth0" row is what the default scraper reads. */
  lemma ScrapeMatchesSubstring(ia: nat, pa: seq<nat>, ca: seq<uint64>, ib: nat, pb: seq<nat>, cb: seq<uint64>)
    requires |pa| == |ca| >= 9 && |pb| == |cb| >= 9
    ensures var data := Unlines([DeviceLine(ia, "veth0", pa, ca), DeviceLine(ib, DEFAULT_INTERFACE, pb, cb)]);
      NewDefault().Stats(data) == Returned(NetworkStats(ca[0], ca[8]), None)
  {
    var row := DeviceLine(ia, "veth0", pa, ca);
    VethRowMentionsEth0(ia, pa, ca);
    assert NewDefault().Pattern() == "eth0:";
    RowHasNoNewline(ia, "veth0", pa, ca);
    RowHasNoNewline(ib, DEFAULT_INTERFACE, pb, cb);
    DeviceLineStats(ia, "veth0", pa, ca);
    ScrapeTable(NewDefault(), [row, DeviceLine(ib, DEFAULT_INTERFACE, pb, cb)], 0);
  }

  /** A "veth0" row contains "eth0:", one character after its indent. */
  lemma VethRowMentionsEth0(indent: nat, pads: seq<nat>, counters: seq<uint64>)
    requires |pads| == |counters|
    ensures Contains(DeviceLine(indent, "veth0", pads, counters), "eth0:")
  {
    var row := DeviceLine(indent, "veth0", pads, counters);
    var p := "veth0:";
    assert row[indent..indent + |p|] == p;
    assert row[indent + 1..indent + 6] == "eth0:";
    assert OccursAt(row, "eth0:", indent + 1);
  }

  /** Scraping a table whose rows before row `k` do not mention the
      interface and whose row `k` does reads the counters off row `k`. */
  lemma ScrapeTable(s: LinuxNetworkDevicesFileScraper, rows: seq<string>, k: nat)
    requires forall j :: 0 <= j < |rows| ==> IsLine(rows[j])
    requires k < |rows| && Contains(rows[k], s.Pattern())
    requires forall j :: 0 <= j < k ==> !Contains(rows[j], s.Pattern())
    ensures s.Stats(Unlines(rows)) == StatsOfLine(rows[k])
  {
    LinesUnlines(rows);
    ScrapeReadsFirstMatch(s, Unlines(rows), k);
  }
}
