/** `get_fondos` and `save_fondo_to_csv`: the listing page is fetched, each
    card is extracted, enriched with its detail page and appended to the
    CSV file at once, under an id that counts the cards written so far. */
module Pipeline {
  import opened Wrappers
  import opened Text
  import opened Html
  import opened Card
  import opened Detail

  /** The search page listing all funds. */
  const ListingUrl: string := "https://fondos.gob.cl/searchernew/"

  /** The header row pandas writes: the inserted ID column, the ten listing
      keys and the three detail keys, in dictionary order. */
  const Columns: seq<string> := [
    "ID", "URL", "ESTADO", "ALCANCE", "INSTITUCIÓN", "NOMBRE", "BENEFICIARIO",
    "INICIO", "FIN", "MONTO", "FECHA_EXTRACCION", "DESCRIPCION", "CATEGORIA", "WEB"]

  /** A fund as written: the listing dictionary updated with the detail one. */
  datatype Record = Record(fondo: Fondo, detail: DetailInfo)

  /** One line of `fondos.csv`. */
  datatype Line = HeaderLine(columns: seq<string>) | DataLine(id: nat, record: Record)

  /** The `mode` argument of `to_csv`: `'w'` truncates, `'a'` appends. */
  datatype Mode = Write | Append

  /** The arguments of one call to `to_csv`. */
  datatype WriteCall = WriteCall(mode: Mode, header: bool, id: nat)

  /** The cards of the listing page: its `col-md-6 col-lg-3` blocks in
      document order. */
  function ListingCards(page: Node): seq<Node> {
    FindAll(page, ByClass("div", "col-md-6 col-lg-3"))
  }

  /** The file `fondos.csv`: its lines, and (for the proofs) the sequence of
      `to_csv` calls made on it. */
  class CsvFile {
    var lines: seq<Line>
    ghost var Calls: seq<WriteCall>

    /** The file as it stands before a run, possibly left by an earlier one. */
    constructor (existing: seq<Line>)
      ensures lines == existing && Calls == []
    {
      lines := existing;
      Calls := [];
    }

    /** A one-row `DataFrame` with its ID column written by `to_csv`: mode
        `'w'` replaces the file, mode `'a'` appends to it; the header row is
        written only when asked for. */
    method ToCsv(id: nat, record: Record, mode: Mode, header: bool)
      modifies this
      ensures lines == (if mode == Write then [] else old(lines)) +
                       (if header then [HeaderLine(Columns)] else []) + [DataLine(id, record)]
      ensures Calls == old(Calls) + [WriteCall(mode, header, id)]
    {
      var kept := if mode == Write then [] else lines;
      var head := if header then [HeaderLine(Columns)] else [];
      lines := kept + head + [DataLine(id, record)];
      Calls := Calls + [WriteCall(mode, header, id)];
    }
  }

  /** The file after one `save_fondo_to_csv`: a fresh file with the header
      and the row when the file is not known to exist, else the old file
      with the row appended. */
  function Saved(lines: seq<Line>, record: Record, index: nat, fileExists: bool): seq<Line> {
    if fileExists then lines + [DataLine(index, record)]
    else [HeaderLine(Columns), DataLine(index, record)]
  }

  /** `save_fondo_to_csv(fondo, index, file_exists)`. */
  method SaveFondoToCsv(file: CsvFile, fondo: Record, index: nat, fileExists: bool)
    modifies file
    ensures file.lines == Saved(old(file.lines), fondo, index, fileExists)
    ensures file.Calls == old(file.Calls) + [WriteCall(if fileExists then Append else Write, !fileExists, index)]
  {
    var mode := if fileExists then Append else Write;
    var header := !fileExists;
    file.ToCsv(index, fondo, mode, header);
  }

  /** One iteration of the card loop: extract the card, fetch its detail
      page at the extracted URL, merge the two. */
  function ProcessCard(card: Node, fetch: string -> Option<Node>, now: string): Result<Record, ScrapeError> {
    match ExtractFondoInfo(card, now)
    case Failure(e) => Failure(e)
    case Success(f) =>
      match fetch(f.url)
      case None => Failure(FetchFailed(f.url))
      case Some(page) => Success(Record(f, DetailOf(page)))
  }

  /** The body of the card loop up to the save: `extract_fondo_info`, the
      GET of the card's URL and `get_detail_info`, merged as
      `fondo_info.update(detail_info)` does. */
  method ScrapeCard(card: Node, fetch: string -> Option<Node>, now: string) returns (r: Result<Record, ScrapeError>)
    ensures r == ProcessCard(card, fetch, now)
    ensures r.Success? ==> r.value.fondo.fechaExtraccion == now && StartsWith(r.value.fondo.url, "http")
  {
    var fondoInfo := ExtractFondoInfo(card, now);
    if fondoInfo.Failure? {
      return Failure(fondoInfo.error);
    }
    var url := fondoInfo.value.url;
    var page := fetch(url);
    if page.None? {
      return Failure(FetchFailed(url));
    }
    var detailInfo := GetDetailInfo(page.value);
    return Success(Record(fondoInfo.value, detailInfo));
  }

  /** The outcome of running the card loop: the records written, and the
      error that stopped the run, if one did. */
  datatype Crawl = Crawl(records: seq<Record>, failure: Option<ScrapeError>)

  /** What each card of the listing yields, card `k` extracted at `clock(k)`. */
  function Outcomes(cards: seq<Node>, fetch: string -> Option<Node>, clock: nat -> string): (r: seq<Result<Record, ScrapeError>>)
    ensures |r| == |cards|
  {
    seq(|cards|, k requires 0 <= k < |cards| => ProcessCard(cards[k], fetch, clock(k)))
  }

  /** The card loop over the per-card outcomes: the records are those of the
      cards before the first failing one, in order, and that card's error
      ends the run. */
  function Run(outcomes: seq<Result<Record, ScrapeError>>): (c: Crawl)
    ensures |c.records| <= |outcomes|
    ensures c.failure.None? ==> |c.records| == |outcomes|
    ensures forall k :: 0 <= k < |c.records| ==> outcomes[k] == Success(c.records[k])
    ensures c.failure.Some? ==> |c.records| < |outcomes| && outcomes[|c.records|] == Failure(c.failure.value)
    decreases |outcomes|
  {
    if outcomes == [] then Crawl([], None)
    else
      var n := |outcomes| - 1;
      var prev := Run(outcomes[..n]);
      if prev.failure.Some? then prev
      else
        match outcomes[n]
        case Failure(e) => Crawl(prev.records, Some(e))
        case Success(r) => Crawl(prev.records + [r], None)
  }

  /** A whole run of `get_fondos` over the cards of a listing. */
  function CrawlCards(cards: seq<Node>, fetch: string -> Option<Node>, clock: nat -> string): Crawl {
    Run(Outcomes(cards, fetch, clock))
  }

  /** Row `k` of a run holds card `k`'s listing fields, extracted at
      `clock(k)`, merged with the detail of the page fetched at that card's
      own URL. */
  lemma CrawlRecordsFromCards(cards: seq<Node>, fetch: string -> Option<Node>, clock: nat -> string, k: nat)
    requires k < |CrawlCards(cards, fetch, clock).records|
    ensures var rec := CrawlCards(cards, fetch, clock).records[k];
      k < |cards| && ExtractFondoInfo(cards[k], clock(k)) == Success(rec.fondo) &&
      rec.fondo.fechaExtraccion == clock(k) &&
      fetch(rec.fondo.url).Some? && rec.detail == DetailOf(fetch(rec.fondo.url).value)
  {
    var outs := Outcomes(cards, fetch, clock);
    assert outs[k] == ProcessCard(cards[k], fetch, clock(k));
  }

  /** A run that stops names the first card it could not finish: either that
      card's extraction error, or the failed fetch of that card's URL. */
  lemma CrawlFailureCause(cards: seq<Node>, fetch: string -> Option<Node>, clock: nat -> string)
    requires CrawlCards(cards, fetch, clock).failure.Some?
    ensures var c := CrawlCards(cards, fetch, clock);
      var n := |c.records|;
      n < |cards| &&
      match ExtractFondoInfo(cards[n], clock(n))
      case Failure(e) => c.failure.value == e
      case Success(f) => fetch(f.url).None? && c.failure.value == FetchFailed(f.url)
  {
    var outs := Outcomes(cards, fetch, clock);
    var n := |CrawlCards(cards, fetch, clock).records|;
    assert outs[n] == ProcessCard(cards[n], fetch, clock(n));
  }

  /** Once a card fails, the later cards change nothing: no further row is
      written and the run ends with that card's error. */
  lemma {:induction false} RunStopsAtFailure(outcomes: seq<Result<Record, ScrapeError>>, i: nat)
    requires i <= |outcomes|
    requires Run(outcomes[..i]).failure.Some?
    ensures Run(outcomes) == Run(outcomes[..i])
    decreases |outcomes|
  {
    if i < |outcomes| {
      var n := |outcomes| - 1;
      assert outcomes[..n][..i] == outcomes[..i];
      RunStopsAtFailure(outcomes[..n], i);
    } else {
      assert outcomes[..i] == outcomes;
    }
  }

  /** Rows are only ever added: the records of a run over the first `i`
      cards begin the records of the run over all of them. */
  lemma {:induction false} RunPrefix(outcomes: seq<Result<Record, ScrapeError>>, i: nat)
    requires i <= |outcomes|
    ensures Run(outcomes[..i]).records <= Run(outcomes).records
    decreases |outcomes|
  {
    if i < |outcomes| {
      var n := |outcomes| - 1;
      assert outcomes[..n][..i] == outcomes[..i];
      RunPrefix(outcomes[..n], i);
    } else {
      assert outcomes[..i] == outcomes;
    }
  }

  /** One more card: a failure ends the run with its error, a success
      appends its record. */
  lemma RunStep(outcomes: seq<Result<Record, ScrapeError>>, i: nat)
    requires i < |outcomes|
    requires Run(outcomes[..i]).failure.None?
    ensures outcomes[i].Failure? ==> Run(outcomes[..i + 1]) == Crawl(Run(outcomes[..i]).records, Some(outcomes[i].error))
    ensures outcomes[i].Success? ==> Run(outcomes[..i + 1]) == Crawl(Run(outcomes[..i]).records + [outcomes[i].value], None)
  {
    assert outcomes[..i + 1][..i] == outcomes[..i];
  }

  /** The file after the rows for `records` were saved one by one, the k-th
      (from 1) with id k and `file_exists` set exactly when k > 1. */
  function FileAfter(initial: seq<Line>, records: seq<Record>): seq<Line>
    decreases |records|
  {
    if records == [] then initial
    else
      var n := |records|;
      Saved(FileAfter(initial, records[..n - 1]), records[n - 1], n, n > 1)
  }

  /** After at least one row, the file holds one header line, first, and
      then the rows with ids 1..n in card order; whatever the file held
      before the run is gone. */
  lemma {:induction false} FileLayout(initial: seq<Line>, records: seq<Record>)
    requires records != []
    ensures var lines := FileAfter(initial, records);
      |lines| == |records| + 1 && lines[0] == HeaderLine(Columns) &&
      forall j :: 1 <= j < |lines| ==> lines[j] == DataLine(j, records[j - 1])
    decreases |records|
  {
    var n := |records|;
    if n > 1 {
      var prefix := records[..n - 1];
      FileLayout(initial, prefix);
      var lines := FileAfter(initial, records);
      assert lines == FileAfter(initial, prefix) + [DataLine(n, records[n - 1])];
      forall j | 1 <= j < |lines|
        ensures lines[j] == DataLine(j, records[j - 1])
      {
        if j < n {
          assert prefix[j - 1] == records[j - 1];
        }
      }
    }
  }

  /** Saving one more record. */
  lemma FileAfterStep(initial: seq<Line>, records: seq<Record>, r: Record)
    ensures FileAfter(initial, records + [r]) ==
            Saved(FileAfter(initial, records), r, |records| + 1, |records| > 0)
  {
    assert (records + [r])[..|records|] == records;
  }

  /** The `to_csv` calls of a run that wrote `n` rows. */
  function CallsFor(n: nat): seq<WriteCall> {
    if n == 0 then []
    else CallsFor(n - 1) + [WriteCall(if n > 1 then Append else Write, !(n > 1), n)]
  }

  /** The write protocol: the k-th call (from 0) writes id k + 1, and only the
      first one uses mode `'w'` and writes the header. */
  lemma {:induction false} WriteProtocol(n: nat)
    ensures |CallsFor(n)| == n
    ensures forall k :: 0 <= k < n ==>
              CallsFor(n)[k] == WriteCall(if k == 0 then Write else Append, k == 0, k + 1)
  {
    if n > 0 {
      WriteProtocol(n - 1);
    }
  }

  lemma AppendAssoc<T>(a: seq<T>, b: seq<T>, c: seq<T>)
    ensures a + (b + c) == (a + b) + c
  {
  }

  /** One pass of the card loop: card `i` is scraped and, when that
      succeeds, saved as row `i + 1`; the file is left alone when it fails. */
  method SaveCard(cards: seq<Node>, fetch: string -> Option<Node>, clock: nat -> string, file: CsvFile, i: nat,
                  ghost outs: seq<Result<Record, ScrapeError>>, ghost initial: seq<Line>, ghost calls: seq<WriteCall>)
    returns (failure: Option<ScrapeError>)
    requires i < |cards| && outs == Outcomes(cards, fetch, clock)
    requires Run(outs[..i]).failure.None? && |Run(outs[..i]).records| == i
    requires file.lines == FileAfter(initial, Run(outs[..i]).records) && file.Calls == calls + CallsFor(i)
    modifies file
    ensures failure == Run(outs[..i + 1]).failure
    ensures failure.Some? ==>
              Run(outs[..i + 1]).records == Run(outs[..i]).records &&
              file.lines == old(file.lines) && file.Calls == old(file.Calls)
    ensures failure.None? ==>
              |Run(outs[..i + 1]).records| == i + 1 &&
              file.lines == FileAfter(initial, Run(outs[..i + 1]).records) && file.Calls == calls + CallsFor(i + 1)
  {
    ghost var before := Run(outs[..i]).records;
    var outcome := ScrapeCard(cards[i], fetch, clock(i));
    RunStep(outs, i);
    if outcome.Failure? {
      return Some(outcome.error);
    }
    var record := outcome.value;
    FileAfterStep(initial, before, record);
    ghost var call := WriteCall(if i > 0 then Append else Write, !(i > 0), i + 1);
    assert CallsFor(i + 1) == CallsFor(i) + [call];
    AppendAssoc(calls, CallsFor(i), [call]);
    SaveFondoToCsv(file, record, i + 1, i + 1 > 1);
    return None;
  }

  /** The card loop of `get_fondos()`: each card is scraped and saved at
      once, `count` numbering the rows from 1 and `file_exists` set from the
      second row on; the first failure aborts the loop. Returns the number
      of rows written. */
  method SaveCards(cards: seq<Node>, fetch: string -> Option<Node>, clock: nat -> string, file: CsvFile)
    returns (result: Result<nat, ScrapeError>)
    modifies file
    ensures var c := CrawlCards(cards, fetch, clock);
      file.lines == FileAfter(old(file.lines), c.records) &&
      file.Calls == old(file.Calls) + CallsFor(|c.records|) &&
      result == (if c.failure.None? then Success(|c.records|) else Failure(c.failure.value))
  {
    ghost var outs := Outcomes(cards, fetch, clock);
    var count := 0;
    var i := 0;
    while i < |cards|
      invariant 0 <= i <= |cards| && count == i
      invariant Run(outs[..i]).failure.None? && |Run(outs[..i]).records| == i
      invariant file.lines == FileAfter(old(file.lines), Run(outs[..i]).records)
      invariant file.Calls == old(file.Calls) + CallsFor(count)
    {
      var failure := SaveCard(cards, fetch, clock, file, i, outs, old(file.lines), old(file.Calls));
      if failure.Some? {
        RunStopsAtFailure(outs, i + 1);
        return Failure(failure.value);
      }
      count := count + 1;
      i := i + 1;
    }
    assert outs[..i] == outs;
    return Success(count);
  }

  /** `get_fondos()`: `fetch` stands for the HTTP GET and parse of a page
      (`None` when the request fails), `clock(k)` for the timestamp taken
      when card `k` is extracted. The return value is the number of rows
      written; a failure aborts the run and leaves the rows already written
      as they are. */
  method GetFondos(fetch: string -> Option<Node>, clock: nat -> string, file: CsvFile)
    returns (result: Result<nat, ScrapeError>)
    modifies file
    ensures fetch(ListingUrl).None? ==>
              result == Failure(FetchFailed(ListingUrl)) &&
              file.lines == old(file.lines) && file.Calls == old(file.Calls)
    ensures fetch(ListingUrl).Some? ==>
              var c := CrawlCards(ListingCards(fetch(ListingUrl).value), fetch, clock);
              file.lines == FileAfter(old(file.lines), c.records) &&
              file.Calls == old(file.Calls) + CallsFor(|c.records|) &&
              result == (if c.failure.None? then Success(|c.records|) else Failure(c.failure.value))
  {
    var listing := fetch(ListingUrl);
    if listing.None? {
      return Failure(FetchFailed(ListingUrl));
    }
    var cards := ListingCards(listing.value);
    result := SaveCards(cards, fetch, clock, file);
  }
}
