/** `extract_fondo_info`: one listing card of the search page becomes the
    ten listing fields of a fund, each looked up independently and
    defaulting to `""` when its element is absent. */
module Card {
  import opened Wrappers
  import opened Text
  import opened Html

  /** The site origin prefixed to relative links. */
  const Origin: string := "https://fondos.gob.cl"

  const StartMarker: string := "Inicio:"
  const EndMarker: string := "Fin:"

  /** The exceptions that escape the scraper's handlers and abort the run:
      the first anchor of a card has no `href` (a `KeyError`), a dates text
      carries both markers but no `|` (an `IndexError`), or a page could not
      be fetched (a `RequestException`). */
  datatype ScrapeError = MissingHref | DatesWithoutSeparator | FetchFailed(url: string)

  /** The ten keys of the dictionary `extract_fondo_info` returns, in order:
      URL, ESTADO, ALCANCE, INSTITUCIÓN, NOMBRE, BENEFICIARIO, INICIO, FIN,
      MONTO, FECHA_EXTRACCION. */
  datatype Fondo = Fondo(
    url: string,
    estado: string,
    alcance: string,
    institucion: string,
    nombre: string,
    beneficiario: string,
    inicio: string,
    fin: string,
    monto: string,
    fechaExtraccion: string)

  /** A link is kept when it already starts with `http`; otherwise the site
      origin is put in front of it. */
  function NormalizeUrl(href: string): (url: string)
    ensures StartsWith(href, "http") ==> url == href
    ensures !StartsWith(href, "http") ==> url == Origin + href
    ensures StartsWith(url, "http")
    ensures |href| <= |url| && url[|url| - |href|..] == href
  {
    if StartsWith(href, "http") then href else Origin + href
  }

  /** Normalising twice is normalising once. */
  lemma NormalizeUrlIdempotent(href: string)
    ensures NormalizeUrl(NormalizeUrl(href)) == NormalizeUrl(href)
  {
  }

  /** The start and end dates of a dates text `Inicio: <d> | Fin: <d>`. The
      text is split only when both markers occur in it; otherwise both
      dates are `""`. With both markers and no `|` the second part does not
      exist and the lookup fails. */
  function SplitDates(fechas: string): (r: Result<(string, string), ScrapeError>)
    ensures !(Contains(fechas, StartMarker) && Contains(fechas, EndMarker)) ==> r == Success(("", ""))
    ensures r.Failure? <==> Contains(fechas, StartMarker) && Contains(fechas, EndMarker) && '|' !in fechas
    ensures r.Failure? ==> r.error == DatesWithoutSeparator
    ensures r.Success? ==> '|' !in r.value.0 && '|' !in r.value.1
    ensures r.Success? ==> IsStripped(r.value.0) && IsStripped(r.value.1)
  {
    if Contains(fechas, StartMarker) && Contains(fechas, EndMarker) then
      var parts := Split(fechas, '|');
      if |parts| < 2 then Failure(DatesWithoutSeparator)
      else
        RemoveAllKeepsOut(parts[0], StartMarker, '|');
        StripKeepsOut(RemoveAll(parts[0], StartMarker), '|');
        RemoveAllKeepsOut(parts[1], EndMarker, '|');
        StripKeepsOut(RemoveAll(parts[1], EndMarker), '|');
        Success((Strip(RemoveAll(parts[0], StartMarker)), Strip(RemoveAll(parts[1], EndMarker))))
    else Success(("", ""))
  }

  /** With both markers present, the start date is the text before the first
      `|` without its marker, the end date the text between the first and
      the second `|` without its marker, both stripped; whatever follows a
      second `|` is ignored. */
  lemma DatesFromParts(a: string, b: string, rest: string)
    requires '|' !in a && '|' !in b && (rest == [] || rest[0] == '|')
    requires Contains(a + "|" + b + rest, StartMarker) && Contains(a + "|" + b + rest, EndMarker)
    ensures SplitDates(a + "|" + b + rest) ==
            Success((Strip(RemoveAll(a, StartMarker)), Strip(RemoveAll(b, EndMarker))))
  {
    SplitFirstTwo(a, b, rest, '|');
  }

  /** A well-formed dates text `Inicio: <d1> | Fin: <d2>` gives back `d1`
      and `d2`, for any dates without surrounding whitespace, without `|`
      and without the marker they follow (for instance `2023-01-01` and
      `28 Febrero 2024`). */
  lemma DatesRoundTrip(d1: string, d2: string)
    requires IsStripped(d1) && IsStripped(d2)
    requires '|' !in d1 && '|' !in d2 && !Contains(d1, StartMarker) && !Contains(d2, EndMarker)
    ensures SplitDates("Inicio: " + d1 + " | Fin: " + d2) == Success((d1, d2))
  {
    var a, b := StartMarker + (" " + d1 + " "), " " + EndMarker + (" " + d2);
    DatesTextShape(d1, d2);
    assert Strip(RemoveAll(a, StartMarker)) == d1 by {
      StartDateRecovered(d1);
    }
    assert Strip(RemoveAll(b, EndMarker)) == d2 by {
      EndDateRecovered(d2);
    }
    assert SplitDates(a + "|" + b + "") == Success((Strip(RemoveAll(a, StartMarker)), Strip(RemoveAll(b, EndMarker)))) by {
      MarkersPresent(a, b);
      DatesFromParts(a, b, "");
    }
  }

  /** The dates text cut at its bar: the start part and the end part. */
  lemma DatesTextShape(d1: string, d2: string)
    ensures "Inicio: " + d1 + " | Fin: " + d2 ==
            StartMarker + (" " + d1 + " ") + "|" + (" " + EndMarker + (" " + d2)) + ""
  {
  }

  lemma MarkersPresent(a: string, b: string)
    requires b != [] && StartsWith(a, StartMarker) && StartsWith(b[1..], EndMarker)
    ensures Contains(a + "|" + b + "", StartMarker) && Contains(a + "|" + b + "", EndMarker)
  {
    var s := a + "|" + b + "";
    assert s[0..][..|StartMarker|] == StartMarker;
    ContainsAt(s, StartMarker, 0);
    assert s[|a| + 2..][..|EndMarker|] == b[1..][..|EndMarker|];
    ContainsAt(s, EndMarker, |a| + 2);
  }

  lemma StartDateRecovered(d: string)
    requires IsStripped(d) && !Contains(d, StartMarker)
    ensures Strip(RemoveAll(StartMarker + (" " + d + " "), StartMarker)) == d
  {
    PaddedNotContains(" ", d, " ", StartMarker);
    MarkerRemovedThenStripped([], StartMarker, " ", d, " ");
    assert [] + StartMarker + (" " + d + " ") == StartMarker + (" " + d + " ");
  }

  lemma EndDateRecovered(d: string)
    requires IsStripped(d) && !Contains(d, EndMarker)
    ensures Strip(RemoveAll(" " + EndMarker + (" " + d), EndMarker)) == d
  {
    assert " " + d + [] == " " + d;
    PaddedNotContains(" ", d, [], EndMarker);
    MarkerRemovedThenStripped(" ", EndMarker, " ", d, []);
    assert " " + d + [] == " " + d;
  }

  /** A marker after whitespace and followed by a padded value in which it
      does not occur: removing the marker and stripping gives the value. */
  lemma MarkerRemovedThenStripped(pre: string, m: string, gap: string, d: string, post: string)
    requires m != [] && AllSpace(pre) && AllSpace(gap) && AllSpace(post) && IsStripped(d)
    requires m[0] !in pre && !Contains(gap + d + post, m)
    ensures Strip(RemoveAll(pre + m + (gap + d + post), m)) == d
  {
    var tail := gap + d + post;
    var removed := RemoveAll(pre + m + tail, m);
    assert removed == pre + tail by {
      RemoveSingleOccurrence(pre, m, tail);
    }
    PaddedStrip(pre, gap, d, post, removed);
  }

  lemma PaddedStrip(pre: string, gap: string, d: string, post: string, s: string)
    requires AllSpace(pre) && AllSpace(gap) && AllSpace(post) && IsStripped(d)
    requires s == pre + (gap + d + post)
    ensures Strip(s) == d
  {
    assert AllSpace(pre + gap);
    assert s == (pre + gap) + d + post;
    StripPadded(pre + gap, d, post);
  }

  /** Both markers are needed: a text carrying only the start marker loses
      its start date, and one carrying only the end marker loses its end
      date; neither fails. */
  lemma DatesNeedBothMarkers(d1: string, d2: string)
    requires !Contains(d1, EndMarker) && !Contains(d2, StartMarker)
    ensures SplitDates(StartMarker + d1) == Success(("", ""))
    ensures SplitDates(EndMarker + d2) == Success(("", ""))
  {
    assert !Contains(StartMarker + d1, EndMarker) by {
      ContainsAfterPrefix(StartMarker, d1, EndMarker);
    }
    assert !Contains(EndMarker + d2, StartMarker) by {
      ContainsAfterPrefix(EndMarker, d2, StartMarker);
    }
  }

  /** The stripped text of the paragraph at position `k`, or `""` when there
      are too few paragraphs. */
  function ParagraphText(ps: seq<Node>, k: nat): (r: string)
    ensures IsStripped(r)
    ensures k >= |ps| ==> r == ""
  {
    if k < |ps| then Strip(ps[k].text) else ""
  }

  /** The card's link: the `href` of its first anchor (an anchor without one
      is a `KeyError`), or `""` without an anchor, then normalised. */
  function CardUrl(card: Node): (r: Result<string, ScrapeError>)
    ensures r.Failure? <==> AnchorLacksHref(card)
    ensures r.Failure? ==> r.error == MissingHref
    ensures r.Success? ==> StartsWith(r.value, "http")
    ensures Find(card, ByTag("a")).None? ==> r == Success(Origin)
    ensures var a := Find(card, ByTag("a"));
      a.Some? && a.value.href.Some? ==> r == Success(NormalizeUrl(a.value.href.value))
  {
    match Find(card, ByTag("a"))
    case None =>
      assert Origin + "" == Origin;
      Success(NormalizeUrl(""))
    case Some(a) =>
      if a.href.None? then Failure(MissingHref) else Success(NormalizeUrl(a.href.value))
  }

  /** The scope badge: a `text-white` span if there is one, else a
      `text-dark` span. The source removes an icon glyph with
      `replace('', '')`, which as written removes nothing, and strips again. */
  function CardScope(card: Node): (r: string)
    ensures IsStripped(r)
  {
    var found :=
      match Find(card, ByClass("span", "text-white"))
      case Some(x) => Some(x)
      case None => Find(card, ByClass("span", "text-dark"));
    Strip(TextOrEmpty(found))
  }

  /** The paragraphs of the card body, when the card has one. */
  function BodyParagraphs(card: Node): Option<seq<Node>> {
    match Find(card, ByClass("div", "card-body"))
    case None => None
    case Some(body) => Some(FindAll(body, ByTag("p")))
  }

  predicate AnchorLacksHref(card: Node) {
    var a := Find(card, ByTag("a"));
    a.Some? && a.value.href.None?
  }

  predicate DatesUnsplittable(card: Node) {
    var ps := BodyParagraphs(card);
    ps.Some? &&
    var fechas := ParagraphText(ps.value, 1);
    Contains(fechas, StartMarker) && Contains(fechas, EndMarker) && '|' !in fechas
  }

  /** Beneficiary, start, end and amount from the card body: paragraphs 0, 1
      and 2 by position, the dates split out of paragraph 1; all four are
      `""` when the card has no body. */
  function BodyFields(card: Node): (r: Result<(string, string, string, string), ScrapeError>)
    ensures r.Failure? <==> DatesUnsplittable(card)
    ensures r.Failure? ==> r.error == DatesWithoutSeparator
    ensures BodyParagraphs(card).None? ==> r == Success(("", "", "", ""))
    ensures r.Success? && BodyParagraphs(card).Some? ==>
              var ps := BodyParagraphs(card).value;
              r.value.0 == ParagraphText(ps, 0) && r.value.3 == ParagraphText(ps, 2) &&
              (r.value.1, r.value.2) == SplitDates(ParagraphText(ps, 1)).value
    ensures r.Success? ==>
              IsStripped(r.value.0) && IsStripped(r.value.1) && IsStripped(r.value.2) && IsStripped(r.value.3)
  {
    match BodyParagraphs(card)
    case None => Success(("", "", "", ""))
    case Some(ps) =>
      match SplitDates(ParagraphText(ps, 1))
      case Failure(e) => Failure(e)
      case Success(dates) => Success((ParagraphText(ps, 0), dates.0, dates.1, ParagraphText(ps, 2)))
  }

  /** `extract_fondo_info(card)` with `now` the extraction timestamp. */
  function ExtractFondoInfo(card: Node, now: string): (r: Result<Fondo, ScrapeError>)
    ensures r.Failure? <==> AnchorLacksHref(card) || DatesUnsplittable(card)
    ensures AnchorLacksHref(card) ==> r == Failure(MissingHref)
    ensures !AnchorLacksHref(card) && DatesUnsplittable(card) ==> r == Failure(DatesWithoutSeparator)
    ensures r.Success? ==> StartsWith(r.value.url, "http") && r.value.fechaExtraccion == now
    ensures r.Success? ==>
              IsStripped(r.value.estado) && IsStripped(r.value.alcance) && IsStripped(r.value.institucion) &&
              IsStripped(r.value.nombre) && IsStripped(r.value.beneficiario) && IsStripped(r.value.inicio) &&
              IsStripped(r.value.fin) && IsStripped(r.value.monto)
    ensures r.Success? && Find(card, ByTag("a")).None? ==> r.value.url == Origin
    ensures var a := Find(card, ByTag("a"));
      r.Success? && a.Some? && a.value.href.Some? ==> r.value.url == NormalizeUrl(a.value.href.value)
    ensures r.Success? && BodyParagraphs(card).None? ==>
              r.value.beneficiario == r.value.inicio == r.value.fin == r.value.monto == ""
    ensures r.Success? && BodyParagraphs(card).Some? ==>
              var ps := BodyParagraphs(card).value;
              r.value.beneficiario == ParagraphText(ps, 0) && r.value.monto == ParagraphText(ps, 2) &&
              (r.value.inicio, r.value.fin) == SplitDates(ParagraphText(ps, 1)).value
  {
    match CardUrl(card)
    case Failure(e) => Failure(e)
    case Success(url) =>
      match BodyFields(card)
      case Failure(e) => Failure(e)
      case Success(body) =>
        Success(Fondo(
          url,
          TextOrEmpty(Find(card, ByClass("span", "badge"))),
          CardScope(card),
          TextOrEmpty(Find(card, ByClass("small", "text-uppercase"))),
          TextOrEmpty(Find(card, ByTag("h6"))),
          body.0, body.1, body.2, body.3,
          now))
  }

  /** First match wins for the scope: a `text-white` span is used even when a
      `text-dark` span exists; the `text-dark` span only when there is no
      `text-white` one; `""` when neither exists. */
  lemma ScopeFirstMatchWins(card: Node, now: string)
    requires ExtractFondoInfo(card, now).Success?
    ensures var alcance := ExtractFondoInfo(card, now).value.alcance;
      match Find(card, ByClass("span", "text-white"))
      case Some(w) => alcance == Strip(w.text)
      case None =>
        match Find(card, ByClass("span", "text-dark"))
        case Some(d) => alcance == Strip(d.text)
        case None => alcance == ""
  {
    match Find(card, ByClass("span", "text-white"))
    case Some(w) => StripStrip(w.text);
    case None =>
      match Find(card, ByClass("span", "text-dark"))
      case Some(d) => StripStrip(d.text);
      case None =>
  }

  /** Status, institution and name are the stripped texts of the first badge
      span, the first `text-uppercase` small and the first `h6`, each `""`
      when its element is absent. */
  lemma SimpleFields(card: Node, now: string)
    requires ExtractFondoInfo(card, now).Success?
    ensures var f := ExtractFondoInfo(card, now).value;
      (Find(card, ByClass("span", "badge")).None? ==> f.estado == "") &&
      (Find(card, ByClass("span", "badge")).Some? ==> f.estado == Strip(Find(card, ByClass("span", "badge")).value.text)) &&
      (Find(card, ByClass("small", "text-uppercase")).None? ==> f.institucion == "") &&
      (Find(card, ByClass("small", "text-uppercase")).Some? ==>
         f.institucion == Strip(Find(card, ByClass("small", "text-uppercase")).value.text)) &&
      (Find(card, ByTag("h6")).None? ==> f.nombre == "") &&
      (Find(card, ByTag("h6")).Some? ==> f.nombre == Strip(Find(card, ByTag("h6")).value.text))
  {
  }

  /** Every text field of a successful extraction has no surrounding
      whitespace. */
  lemma FieldsAreStripped(card: Node, now: string)
    requires ExtractFondoInfo(card, now).Success?
    ensures var f := ExtractFondoInfo(card, now).value;
      Strip(f.estado) == f.estado && Strip(f.alcance) == f.alcance &&
      Strip(f.institucion) == f.institucion && Strip(f.nombre) == f.nombre &&
      Strip(f.beneficiario) == f.beneficiario && Strip(f.inicio) == f.inicio &&
      Strip(f.fin) == f.fin && Strip(f.monto) == f.monto
  {
    var f := ExtractFondoInfo(card, now).value;
    StripFixed(f.estado);
    StripFixed(f.alcance);
    StripFixed(f.institucion);
    StripFixed(f.nombre);
    StripFixed(f.beneficiario);
    StripFixed(f.inicio);
    StripFixed(f.fin);
    StripFixed(f.monto);
  }
}
