/** The file-based sampler: it opens the resource at its URI, hands what it
    reads to a scraper, closes the resource again and returns the sum of
    the received and transmitted bytes. */
module Sampler {
  import opened Base
  import opened Text
  import opened Scraper

  /** What a path names: a file whose contents can be read, or one whose
      opening fails for the given reason. */
  datatype FileEntry = Regular(contents: string) | Unopenable(reason: string)

  predicate Openable(files: map<string, FileEntry>, path: string) {
    path in files && files[path].Regular?
  }

  /** The error `os.Open` returns for a path it cannot open. */
  function OpenError(files: map<string, FileEntry>, path: string): string
    requires !Openable(files, path)
  {
    if path !in files then "open " + path + ": no such file or directory"
    else "open " + path + ": " + files[path].reason
  }

  /** An open handle on a file. */
  class File {
    const contents: string
    var isOpen: bool

    constructor (contents: string)
      ensures this.contents == contents && isOpen
    {
      this.contents := contents;
      isOpen := true;
    }

    /** Reads the whole file through the handle. */
    method ReadAll() returns (data: string)
      requires isOpen
      ensures data == contents
    {
      data := contents;
    }
  }

  /** The file system: a fixed map from paths to entries, and ghost counts
      of the handles opened and closed so far. */
  class FileSystem {
    const files: map<string, FileEntry>
    ghost var opens: nat
    ghost var closes: nat

    constructor (files: map<string, FileEntry>)
      ensures this.files == files && opens == 0 && closes == 0
    {
      this.files := files;
      opens := 0;
      closes := 0;
    }

    /** `os.Open`: a fresh open handle on a readable file, or the open error
        and no handle. */
    method Open(path: string) returns (f: File?, err: Option<string>)
      modifies this
      ensures Openable(files, path) ==>
        f != null && fresh(f) && f.isOpen && f.contents == files[path].contents
        && err == None && opens == old(opens) + 1
      ensures !Openable(files, path) ==>
        f == null && err == Some(OpenError(files, path)) && opens == old(opens)
      ensures closes == old(closes)
    {
      if Openable(files, path) {
        f := new File(files[path].contents);
        err := None;
        opens := opens + 1;
      } else {
        f := null;
        err := Some(OpenError(files, path));
      }
    }

    /** `(*os.File).Close`. */
    method Close(f: File)
      requires f.isOpen
      modifies this, f
      ensures !f.isOpen
      ensures closes == old(closes) + 1 && opens == old(opens)
    {
      f.isOpen := false;
      closes := closes + 1;
    }
  }

  /** A scraper, as the sampler sees it: a function of the text it is given. */
  type ScrapeFn = string -> Outcome<NetworkStats>

  /** The Linux scraper for one interface as a `ScrapeFn`. */
  function LinuxScraper(s: LinuxNetworkDevicesFileScraper): (fn: ScrapeFn)
    ensures forall data :: fn(data) == s.Stats(data)
  {
    (data: string) => s.Stats(data)
  }

  /** The kernel's device table, which the production sampler reads. */
  const PROC_NET_DEV: string := "/proc/net/dev"

  datatype FileBasedSampler = FileBasedSampler(uri: string, scraper: ScrapeFn)
  {
    /** What `Sample` ends with, given the file system: the open error with
        0; else a panic of the scraper, passed on; else the scraper's error
        with 0; else the wrapped sum of the two counters. */
    function Sampled(files: map<string, FileEntry>): Outcome<uint64> {
      if !Openable(files, uri) then Returned(0, Some(OpenError(files, uri)))
      else
        match scraper(files[uri].contents)
        case Panicked(reason) => Panicked(reason)
        case Returned(stats, err) =>
          if err.Some? then Returned(0, err)
          else Returned(Add64(stats.receivedBytes, stats.transmittedBytes), None)
    }

    /** `Sample`: opens the file, scrapes it, closes it (the close is
        deferred, so it runs whether the scraper returns or panics) and sums
        the counters. The ghost `scraped` is the text the scraper was given,
        if it was called at all. */
    method Sample(fs: FileSystem) returns (r: Outcome<uint64>, ghost scraped: Option<string>)
      modifies fs
      ensures r == Sampled(fs.files)
      ensures scraped == if Openable(fs.files, uri) then Some(fs.files[uri].contents) else None
      ensures fs.opens == old(fs.opens) + (if Openable(fs.files, uri) then 1 else 0)
      ensures fs.closes - old(fs.closes) == fs.opens - old(fs.opens)
    {
      var f, err := fs.Open(uri);
      if err.Some? {
        return Returned(0, err), None;
      }
      var data := f.ReadAll();
      scraped := Some(data);
      var scrapedStats := scraper(data);
      fs.Close(f);
      match scrapedStats
      case Panicked(reason) =>
        r := Panicked(reason);
      case Returned(stats, scrapeErr) =>
        if scrapeErr.Some? {
          r := Returned(0, scrapeErr);
        } else {
          r := Returned(Add64(stats.receivedBytes, stats.transmittedBytes), None);
        }
    }
  }

  /** `NewFileBasedSampler` for the production path and scraper. */
  function ProcNetDevSampler(): (s: FileBasedSampler)
    ensures s.uri == PROC_NET_DEV
    ensures forall data :: s.scraper(data) == NewDefault().Stats(data)
  {
    FileBasedSampler(PROC_NET_DEV, LinuxScraper(NewDefault()))
  }

  /** When the file cannot be opened the open error comes back with 0, and
      which scraper the sampler holds makes no difference, since it is not
      called. */
  lemma OpenFailureSkipsScraper(uri: string, s1: ScrapeFn, s2: ScrapeFn, files: map<string, FileEntry>)
    requires !Openable(files, uri)
    ensures FileBasedSampler(uri, s1).Sampled(files) == FileBasedSampler(uri, s2).Sampled(files)
    ensures FileBasedSampler(uri, s1).Sampled(files) == Returned(0, Some(OpenError(files, uri)))
  {
  }

  /** A missing file gives Go's "no such file or directory" error. */
  lemma MissingFileError(sampler: FileBasedSampler, files: map<string, FileEntry>)
    requires sampler.uri !in files
    ensures sampler.Sampled(files).Returned?
    ensures sampler.Sampled(files).err == Some("open " + sampler.uri + ": no such file or directory")
  {
  }

  /** The sample is an error exactly when the open fails or the scraper
      returns an error, and every error comes with the value 0. */
  lemma SampleErrorIff(sampler: FileBasedSampler, files: map<string, FileEntry>)
    requires Openable(files, sampler.uri) ==> sampler.scraper(files[sampler.uri].contents).Returned?
    ensures sampler.Sampled(files).Returned?
    ensures sampler.Sampled(files).err.Some?
        <==> !Openable(files, sampler.uri) || sampler.scraper(files[sampler.uri].contents).err.Some?
    ensures sampler.Sampled(files).err.Some? ==> sampler.Sampled(files).value == 0
  {
  }

  /** A scraper error reaches the caller unchanged. */
  lemma ScrapeErrorPropagates(sampler: FileBasedSampler, files: map<string, FileEntry>, e: string)
    requires Openable(files, sampler.uri)
    requires sampler.scraper(files[sampler.uri].contents).Returned?
    requires sampler.scraper(files[sampler.uri].contents).err == Some(e)
    ensures sampler.Sampled(files) == Returned(0, Some(e))
  {
  }

  /** A successful sample is the transmitted bytes plus the received bytes
      modulo 2^64: subtracting either counter (with wrap-around) gives the
      other back. */
  lemma SampleIsWrappedSum(sampler: FileBasedSampler, files: map<string, FileEntry>)
    requires Openable(files, sampler.uri)
    requires sampler.scraper(files[sampler.uri].contents).Returned?
    requires sampler.scraper(files[sampler.uri].contents).err.None?
    ensures var stats := sampler.scraper(files[sampler.uri].contents).value;
      var r := sampler.Sampled(files);
      r.Returned? && r.err.None?
      && r.value == (stats.receivedBytes + stats.transmittedBytes) % UINT64_MODULUS
      && Sub64(r.value, stats.transmittedBytes) == stats.receivedBytes
      && Sub64(r.value, stats.receivedBytes) == stats.transmittedBytes
  {
  }

  /** The sample depends on nothing but the entry at the sampler's URI. */
  lemma SampleReadsOnlyItsFile(sampler: FileBasedSampler, f1: map<string, FileEntry>, f2: map<string, FileEntry>)
    requires sampler.uri in f1 <==> sampler.uri in f2
    requires sampler.uri in f1 ==> f1[sampler.uri] == f2[sampler.uri]
    ensures sampler.Sampled(f1) == sampler.Sampled(f2)
  {
  }

  /** End to end: sampling a device table with the Linux scraper for an
      interface gives that interface's received plus transmitted bytes,
      wrapped to 64 bits. */
  lemma SampleDeviceTable(s: LinuxNetworkDevicesFileScraper, uri: string, files: map<string, FileEntry>,
                          rows: seq<string>, k: nat, indent: nat, pads: seq<nat>, counters: seq<uint64>)
    requires forall i :: 0 <= i < |s.interfaceName| ==> !IsSpace(s.interfaceName[i])
    requires |pads| == |counters| && |counters| >= 9
    requires forall j :: 0 <= j < |rows| ==> IsLine(rows[j])
    requires k < |rows| && rows[k] == DeviceLine(indent, s.interfaceName, pads, counters)
    requires forall j :: 0 <= j < k ==> !Contains(rows[j], s.Pattern())
    requires uri in files && files[uri] == Regular(Unlines(rows))
    ensures FileBasedSampler(uri, LinuxScraper(s)).Sampled(files)
         == Returned((counters[0] + counters[8]) % UINT64_MODULUS, None)
  {
    ScrapeDeviceTable(s, rows, k, indent, pads, counters);
  }
}
