/** The caption and photo decision of `send_movie_with_poster`. */
module Caption {
  import opened Wrappers
  import opened Decimal
  import opened MarkdownV2

  /** A TMDB movie record as the bot reads it; `None` is an absent key.
      `voteAverage` is the text `str()` gives for the rating. */
  datatype Movie = Movie(
    id: Option<int>,
    title: Option<string>,
    overview: Option<string>,
    releaseDate: Option<string>,
    voteAverage: Option<string>,
    posterPath: Option<string>)

  const ImageBaseUrl := "https://image.tmdb.org/t/p/w500"
  const MovieUrlBase := "https://www.themoviedb.org/movie/"
  const SynopsisBudget := 250
  const Ellipsis := "..."
  const NoOverview := "Sin descripción."

  const TitleMark := "\U{1F3AC} *"
  const TitleEnd := "*"
  const DateMark := "\U{1F5D3}\U{FE0F} Estreno: "
  const RatingMark := "⭐ Puntuación: "
  const RatingEnd := "/10"
  const SynopsisMark := "\U{1F4DD} Sinopsis: "
  const LinkMark := "[Ver en TMDB]("
  const LinkEnd := ")"

  function TitleText(m: Movie): string { m.title.GetOr("N/A") }
  function ReleaseDateText(m: Movie): string { m.releaseDate.GetOr("N/A") }
  function RatingText(m: Movie): string { m.voteAverage.GetOr("0") }

  /** `movie_id` is truthy: present and not 0. */
  predicate HasLink(m: Movie) {
    m.id.Some? && m.id.value != 0
  }

  function MovieUrl(id: int): string {
    MovieUrlBase + IntToDecimal(id)
  }

  /** The synopsis before escaping: the overview (or its default) cut to
      250 characters, with the ellipsis always appended. */
  function SynopsisSource(m: Movie): (s: string)
    ensures |Ellipsis| <= |s| <= SynopsisBudget + |Ellipsis|
    ensures s[|s| - |Ellipsis|..] == Ellipsis
    ensures var o := m.overview.GetOr(NoOverview);
      s[..|s| - |Ellipsis|] <= o && (|o| <= SynopsisBudget ==> s == o + Ellipsis)
    ensures |m.overview.GetOr(NoOverview)| > SynopsisBudget ==> |s| == SynopsisBudget + |Ellipsis|
  {
    var o := m.overview.GetOr(NoOverview);
    (if |o| <= SynopsisBudget then o else o[..SynopsisBudget]) + Ellipsis
  }

  // Each line around its already escaped field.
  function TitleLine(title: string): string { TitleMark + title + TitleEnd }
  function DateLine(date: string): string { DateMark + date }
  function RatingLine(rating: string): string { RatingMark + rating + RatingEnd }
  function SynopsisLine(synopsis: string): string { SynopsisMark + synopsis }
  function LinkLine(url: string): string { LinkMark + url + LinkEnd }

  /** The caption's lines, in order, each field escaped on its own and the
      bot's own markup left as it is. */
  function CaptionLines(m: Movie, intro: string): (lines: seq<string>)
    ensures |lines| == (if intro != "" then 1 else 0) + 4 + (if HasLink(m) then 1 else 0)
  {
    IntroLines(intro) + CoreLines(m) + LinkLines(m)
  }

  /** The intro line, only for a non-empty intro. */
  function IntroLines(intro: string): seq<string> {
    if intro != "" then [Escape(intro)] else []
  }

  /** The four fixed lines of a caption. */
  function CoreLines(m: Movie): (core: seq<string>)
    ensures |core| == 4
  {
    [ TitleLine(Escape(TitleText(m))), DateLine(Escape(ReleaseDateText(m))),
      RatingLine(Escape(RatingText(m))), SynopsisLine(Escape(SynopsisSource(m))) ]
  }

  /** The link line, only for a truthy id. */
  function LinkLines(m: Movie): seq<string> {
    if HasLink(m) then [LinkLine(Escape(MovieUrl(m.id.value)))] else []
  }

  /** The lines in the order the builder appends them. */
  lemma CaptionLinesInOrder(m: Movie, intro: string)
    ensures CaptionLines(m, intro)
      == IntroLines(intro) + [TitleLine(Escape(TitleText(m)))] + [DateLine(Escape(ReleaseDateText(m)))]
         + [RatingLine(Escape(RatingText(m)))] + [SynopsisLine(Escape(SynopsisSource(m)))] + LinkLines(m)
  {
    var core := CoreLines(m);
    assert core == [core[0]] + [core[1]] + [core[2]] + [core[3]];
  }

  /** Lines joined, each one ended by a newline. */
  function Render(lines: seq<string>): (text: string)
    ensures |text| >= |lines|
    ensures lines != [] ==> text[|text| - 1] == '\n'
  {
    if lines == [] then "" else lines[0] + "\n" + Render(lines[1..])
  }

  lemma {:induction false} RenderAppend(a: seq<string>, b: seq<string>)
    ensures Render(a + b) == Render(a) + Render(b)
  {
    if a == [] {
      assert a + b == b;
    } else {
      assert (a + b)[0] == a[0] && (a + b)[1..] == a[1..] + b;
      RenderAppend(a[1..], b);
    }
  }

  /** Adding a line to the list adds it, and its newline, to the text. */
  lemma RenderSnoc(a: seq<string>, line: string)
    ensures Render(a + [line]) == Render(a) + line + "\n"
  {
    RenderAppend(a, [line]);
    assert Render([line]) == line + "\n" + Render([]);
  }

  /** The photo to send: the image base plus `poster_path`, exactly when
      `poster_path` is truthy. */
  function PosterUrl(m: Movie): (r: Option<string>)
    ensures r.Some? <==> m.posterPath.Some? && m.posterPath.value != ""
    ensures r.Some? ==> r.value == ImageBaseUrl + m.posterPath.value
  {
    match m.posterPath
    case Some(path) => if path != "" then Some(ImageBaseUrl + path) else None
    case None => None
  }

  /** Lines 53-72: the caption built up line by line, and the photo decision. */
  method BuildCaption(movie: Movie, intro: string) returns (caption: string, poster: Option<string>)
    ensures caption == Render(CaptionLines(movie, intro))
    ensures poster == PosterUrl(movie)
  {
    var title := Escape(TitleText(movie));
    var overview := Escape(SynopsisSource(movie));
    var releaseDate := Escape(ReleaseDateText(movie));
    var voteAverage := Escape(RatingText(movie));
    ghost var lines := IntroLines(intro);

    caption := if intro != "" then Escape(intro) + "\n" else "";
    assert intro != "" ==> Render(lines) == Escape(intro) + "\n" + Render([]);
    assert caption == Render(lines);
    RenderSnoc(lines, TitleLine(title));
    caption, lines := caption + TitleLine(title) + "\n", lines + [TitleLine(title)];
    RenderSnoc(lines, DateLine(releaseDate));
    caption, lines := caption + DateLine(releaseDate) + "\n", lines + [DateLine(releaseDate)];
    RenderSnoc(lines, RatingLine(voteAverage));
    caption, lines := caption + RatingLine(voteAverage) + "\n", lines + [RatingLine(voteAverage)];
    RenderSnoc(lines, SynopsisLine(overview));
    caption, lines := caption + SynopsisLine(overview) + "\n", lines + [SynopsisLine(overview)];
    if HasLink(movie) {
      var link := LinkLine(Escape(MovieUrl(movie.id.value)));
      RenderSnoc(lines, link);
      caption, lines := caption + link + "\n", lines + [link];
    } else {
      assert lines + LinkLines(movie) == lines;
    }
    CaptionLinesInOrder(movie, intro);

    match movie.posterPath {
      case Some(path) =>
        poster := if path != "" then Some(ImageBaseUrl + path) else None;
      case None =>
        poster := None;
    }
  }

  // ---- Reading a caption back ----

  /** What a reader recovers from a caption's lines. */
  datatype CaptionFields = CaptionFields(
    intro: string,
    title: string,
    releaseDate: string,
    rating: string,
    synopsis: string,
    link: Option<int>)

  predicate StartsWith(s: string, prefix: string) {
    |prefix| <= |s| && s[..|prefix|] == prefix
  }

  /** The unescaped text of `line` between `prefix` and `suffix`. */
  function Field(line: string, prefix: string, suffix: string): (r: Option<string>)
    ensures r.Some? ==> StartsWith(line, prefix)
  {
    if |prefix| + |suffix| <= |line| && line[..|prefix|] == prefix && line[|line| - |suffix|..] == suffix
    then Some(Unescape(line[|prefix|..|line| - |suffix|]))
    else None
  }

  /** The movie id a link line points at. */
  function LinkTarget(line: string): Option<int> {
    match Field(line, LinkMark, LinkEnd)
    case None => None
    case Some(url) =>
      if StartsWith(url, MovieUrlBase) then ParseInt(url[|MovieUrlBase|..]) else None
  }

  /** The title, date, rating and synopsis of the four fixed lines. */
  function ParseCore(core: seq<string>): Option<(string, string, string, string)>
    requires |core| == 4
  {
    match (Field(core[0], TitleMark, TitleEnd), Field(core[1], DateMark, ""),
           Field(core[2], RatingMark, RatingEnd), Field(core[3], SynopsisMark, ""))
    case (Some(title), Some(date), Some(rating), Some(synopsis)) => Some((title, date, rating, synopsis))
    case _ => None
  }

  /** Partner of `CaptionLines`: a link line is recognised by its mark at
      the end; an intro line is there when five lines remain. */
  function ParseCaption(lines: seq<string>): Option<CaptionFields> {
    var hasLink := |lines| >= 1 && StartsWith(lines[|lines| - 1], LinkMark);
    var body := if hasLink then lines[..|lines| - 1] else lines;
    var link := if hasLink then LinkTarget(lines[|lines| - 1]) else None;
    if (|body| != 4 && |body| != 5) || (hasLink && link.None?) then None
    else
      var intro := if |body| == 5 then Unescape(body[0]) else "";
      match ParseCore(body[|body| - 4..])
      case None => None
      case Some((title, date, rating, synopsis)) =>
        Some(CaptionFields(intro, title, date, rating, synopsis, link))
  }

  /** The fields a caption is meant to carry. */
  function Intended(m: Movie, intro: string): CaptionFields {
    CaptionFields(intro, TitleText(m), ReleaseDateText(m), RatingText(m), SynopsisSource(m),
                  if HasLink(m) then Some(m.id.value) else None)
  }

  lemma FieldOf(prefix: string, text: string, suffix: string)
    ensures Field(prefix + Escape(text) + suffix, prefix, suffix) == Some(text)
  {
    var line := prefix + Escape(text) + suffix;
    assert line[..|prefix|] == prefix;
    assert line[|line| - |suffix|..] == suffix;
    assert line[|prefix|..|line| - |suffix|] == Escape(text);
    UnescapeEscape(text);
  }

  lemma LinkTargetOf(id: int)
    ensures LinkTarget(LinkLine(Escape(MovieUrl(id)))) == Some(id)
  {
    FieldOf(LinkMark, MovieUrl(id), LinkEnd);
    var url := MovieUrl(id);
    assert url[..|MovieUrlBase|] == MovieUrlBase;
    assert url[|MovieUrlBase|..] == IntToDecimal(id);
    ParseIntRoundTrip(id);
  }

  /** The four fixed lines read back as the title, date, rating and synopsis. */
  lemma CoreFields(m: Movie)
    ensures var core := CoreLines(m);
      ParseCore(core) == Some((TitleText(m), ReleaseDateText(m), RatingText(m), SynopsisSource(m)))
      && !StartsWith(core[3], LinkMark)
  {
    FieldOf(TitleMark, TitleText(m), TitleEnd);
    FieldOf(DateMark, ReleaseDateText(m), "");
    FieldOf(RatingMark, RatingText(m), RatingEnd);
    FieldOf(SynopsisMark, SynopsisSource(m), "");
    assert DateLine(Escape(ReleaseDateText(m))) == DateMark + Escape(ReleaseDateText(m)) + "";
    assert SynopsisLine(Escape(SynopsisSource(m))) == SynopsisMark + Escape(SynopsisSource(m)) + "";
    assert SynopsisLine(Escape(SynopsisSource(m)))[0] != LinkMark[0];
  }

  /** Every caption reads back as the fields it was built from: the intro
      only when given, the defaults for absent fields, the cut synopsis,
      and a link to the movie's own id exactly when the id is truthy. */
  lemma ParseCaptionLines(m: Movie, intro: string)
    ensures ParseCaption(CaptionLines(m, intro)) == Some(Intended(m, intro))
  {
    var head := IntroLines(intro);
    var core := CoreLines(m);
    CoreFields(m);
    if intro != "" {
      UnescapeEscape(intro);
      assert Unescape(head[0]) == intro;
    }
    if HasLink(m) {
      LinkTargetOf(m.id.value);
    }
    ParseBody(head, core, LinkLines(m), Intended(m, intro));
  }

  /** `ParseCaption` on an optional intro line, four core lines and an
      optional link line reads each part on its own. */
  lemma ParseBody(head: seq<string>, core: seq<string>, link: seq<string>, f: CaptionFields)
    requires |head| <= 1 && |core| == 4 && |link| <= 1
    requires (|head| == 1) == (f.intro != "") && (|head| == 1 ==> Unescape(head[0]) == f.intro)
    requires ParseCore(core) == Some((f.title, f.releaseDate, f.rating, f.synopsis))
    requires !StartsWith(core[3], LinkMark)
    requires |link| == 1 ==> StartsWith(link[0], LinkMark) && LinkTarget(link[0]) == f.link && f.link.Some?
    requires |link| == 0 ==> f.link.None?
    ensures ParseCaption(head + core + link) == Some(f)
  {
    var lines := head + core + link;
    var body := head + core;
    assert body[|body| - 4..] == core;
    if |link| == 1 {
      assert lines[..|lines| - 1] == body;
      assert lines[|lines| - 1] == link[0];
    } else {
      assert lines == body;
      assert lines[|lines| - 1] == core[3];
    }
  }

  /** A caption has a line starting with the link mark exactly when the
      movie's id is truthy; an intro cannot fake one, since its `[` is
      escaped. */
  lemma LinkLineIffId(m: Movie, intro: string)
    ensures (exists i :: 0 <= i < |CaptionLines(m, intro)| && StartsWith(CaptionLines(m, intro)[i], LinkMark))
            <==> HasLink(m)
  {
    var lines := CaptionLines(m, intro);
    var head := IntroLines(intro);
    var core := CoreLines(m);
    if HasLink(m) {
      assert StartsWith(lines[|lines| - 1], LinkMark);
    } else {
      assert lines == head + core;
      forall i | 0 <= i < |lines| ensures !StartsWith(lines[i], LinkMark) {
        if i < |head| {
          EscapeHead(intro);
          assert lines[i] == head[i];
          assert lines[i][0] != LinkMark[0];
        } else {
          assert lines[i] == core[i - |head|];
          assert lines[i][0] != LinkMark[0];
        }
      }
    }
  }

  /** The escaped synopsis always ends in three escaped dots. */
  lemma SynopsisLineEnd(m: Movie)
    ensures var line := SynopsisMark + Escape(SynopsisSource(m));
      line[|line| - 6..] == "\\.\\.\\."
  {
    var s := SynopsisSource(m);
    assert s == s[..|s| - 3] + Ellipsis;
    EscapeAppend(s[..|s| - 3], Ellipsis);
  }

  /** A concrete record: one with id 603 ends its
      caption with a link line, and that link points at movie 603. */
  lemma LinkFor603(m: Movie, intro: string)
    requires m.id == Some(603)
    ensures var lines := CaptionLines(m, intro);
      StartsWith(lines[|lines| - 1], LinkMark) && LinkTarget(lines[|lines| - 1]) == Some(603)
  {
    LinkTargetOf(603);
  }
}
