/** The genre menu of `recomendar_menu_genero_handler` and the decoding of
    its button presses in `handle_recomendar_callback`. The genre map is
    the dict's items in insertion order, so its ids are distinct. */
module Genres {
  import opened Wrappers
  import opened Decimal
  import opened TmdbClient

  datatype Genre = Genre(id: int, name: string)

  /** An inline button: its label and the callback data it sends back. */
  datatype Button = Button(text: string, callbackData: string)

  const MaxGenres := 12
  const RowWidth := 2
  const CallbackPrefix := "recom_genero_"
  const UnknownGenre := "Desconocido"

  /** The items of a dict: no id twice. */
  predicate DistinctIds(genres: seq<Genre>) {
    forall i, j :: 0 <= i < j < |genres| ==> genres[i].id != genres[j].id
  }

  function CallbackData(id: int): string {
    CallbackPrefix + IntToDecimal(id)
  }

  function GenreButton(g: Genre): Button {
    Button(g.name, CallbackData(g.id))
  }

  function Buttons(genres: seq<Genre>): (bs: seq<Button>)
    ensures |bs| == |genres|
    ensures forall i :: 0 <= i < |genres| ==> bs[i] == GenreButton(genres[i])
  {
    seq(|genres|, i requires 0 <= i < |genres| => GenreButton(genres[i]))
  }

  /** `list(GENRE_MAP.items())[:12]`. */
  function Shown(genres: seq<Genre>): (s: seq<Genre>)
    ensures |s| == if |genres| <= MaxGenres then |genres| else MaxGenres
    ensures s <= genres
  {
    if |genres| <= MaxGenres then genres else genres[..MaxGenres]
  }

  /** The buttons of a keyboard, row after row. */
  function Flatten(rows: seq<seq<Button>>): seq<Button> {
    if rows == [] then [] else Flatten(rows[..|rows| - 1]) + rows[|rows| - 1]
  }

  /** Full rows of two, and a last row of one or two. */
  predicate WellShaped(rows: seq<seq<Button>>) {
    (forall i :: 0 <= i < |rows| - 1 ==> |rows[i]| == RowWidth)
    && (rows != [] ==> 1 <= |rows[|rows| - 1]| <= RowWidth)
  }

  lemma FlattenSnoc(rows: seq<seq<Button>>, row: seq<Button>)
    ensures Flatten(rows + [row]) == Flatten(rows) + row
  {
    assert (rows + [row])[..|rows|] == rows;
  }

  lemma ButtonsSnoc(genres: seq<Genre>, i: nat)
    requires i < |genres|
    ensures Buttons(genres[..i + 1]) == Buttons(genres[..i]) + [GenreButton(genres[i])]
  {
  }

  /** Closing a full row keeps the buttons and keeps every row full. */
  lemma FullRow(rows: seq<seq<Button>>, row: seq<Button>)
    requires forall k :: 0 <= k < |rows| ==> |rows[k]| == RowWidth
    requires |row| == RowWidth
    ensures Flatten(rows + [row]) + [] == Flatten(rows) + row
    ensures forall k :: 0 <= k < |rows + [row]| ==> |(rows + [row])[k]| == RowWidth
  {
    FlattenSnoc(rows, row);
  }

  /** Appending the unfinished row, when there is one, closes a keyboard of
      full rows into a well-shaped one. */
  lemma CloseKeyboard(rows: seq<seq<Button>>, row: seq<Button>, n: nat)
    requires forall k :: 0 <= k < |rows| ==> |rows[k]| == RowWidth
    requires |row| < RowWidth && RowWidth * |rows| + |row| == n
    ensures var closed := if row != [] then rows + [row] else rows;
      Flatten(closed) == Flatten(rows) + row && WellShaped(closed) && |closed| == (n + 1) / RowWidth
  {
    if row != [] {
      FlattenSnoc(rows, row);
    } else {
      assert Flatten(rows) + row == Flatten(rows);
    }
  }

  /** Lines 265-268, one pass of the loop: the button joins the open row,
      and a row that reaches two buttons is closed. */
  method PlaceButton(rows: seq<seq<Button>>, row: seq<Button>, button: Button)
    returns (rows': seq<seq<Button>>, row': seq<Button>)
    requires forall k :: 0 <= k < |rows| ==> |rows[k]| == RowWidth
    requires |row| < RowWidth
    ensures Flatten(rows') + row' == Flatten(rows) + row + [button]
    ensures forall k :: 0 <= k < |rows'| ==> |rows'[k]| == RowWidth
    ensures |row'| < RowWidth
    ensures RowWidth * |rows'| + |row'| == RowWidth * |rows| + |row| + 1
  {
    rows', row' := rows, row + [button];
    if |row'| >= RowWidth {
      FullRow(rows', row');
      rows', row' := rows' + [row'], [];
    }
  }

  /** Lines 262-270: the first twelve genres, in map order, two to a row. */
  method GenreKeyboard(genres: seq<Genre>) returns (keyboard: seq<seq<Button>>)
    ensures Flatten(keyboard) == Buttons(Shown(genres))
    ensures WellShaped(keyboard)
    ensures |keyboard| == (|Shown(genres)| + 1) / RowWidth
  {
    var shown := Shown(genres);
    keyboard := [];
    var row: seq<Button> := [];
    for i := 0 to |shown|
      invariant Flatten(keyboard) + row == Buttons(shown[..i])
      invariant forall k :: 0 <= k < |keyboard| ==> |keyboard[k]| == RowWidth
      invariant |row| < RowWidth
      invariant RowWidth * |keyboard| + |row| == i
    {
      ButtonsSnoc(shown, i);
      keyboard, row := PlaceButton(keyboard, row, GenreButton(shown[i]));
    }
    assert shown[..|shown|] == shown;
    CloseKeyboard(keyboard, row, |shown|);
    if row != [] {
      keyboard := keyboard + [row];
    }
  }

  /** The reply of the genre menu handler. */
  datatype GenreMenu =
    | Unavailable                         // the genre map is empty
    | NoGenres                            // no keyboard rows were built
    | Menu(keyboard: seq<seq<Button>>)

  /** Lines 254-277: an empty map gives the "unavailable" reply; the
      "no genres" reply can never be sent, since a non-empty map always
      yields at least one row. */
  method GenreMenuReply(genres: seq<Genre>) returns (reply: GenreMenu)
    ensures reply.Unavailable? <==> genres == []
    ensures !reply.NoGenres?
    ensures reply.Menu? ==> Flatten(reply.keyboard) == Buttons(Shown(genres)) && WellShaped(reply.keyboard)
  {
    if genres == [] {
      return Unavailable;
    }
    var keyboard := GenreKeyboard(genres);
    reply := if keyboard == [] then NoGenres else Menu(keyboard);
  }

  /** Python's `s.split('_')[-1]`: what follows the last underscore, or
      all of `s` when it has none. */
  function LastField(s: string): (r: string)
    ensures '_' !in r
    ensures |r| <= |s| && r == s[|s| - |r|..]
    ensures |r| < |s| ==> s[|s| - |r| - 1] == '_'
  {
    if s == [] then []
    else if s[|s| - 1] == '_' then []
    else LastField(s[..|s| - 1]) + [s[|s| - 1]]
  }

  lemma {:induction false} LastFieldAfterUnderscore(p: string, t: string)
    requires '_' !in t
    ensures LastField(p + "_" + t) == t
  {
    if t != [] {
      var s := p + "_" + t;
      assert s[..|s| - 1] == p + "_" + t[..|t| - 1];
      LastFieldAfterUnderscore(p, t[..|t| - 1]);
      assert t == t[..|t| - 1] + [t[|t| - 1]];
    } else {
      assert p + "_" + t == p + "_";
    }
  }

  /** Line 284: `int(data.split('_')[-1])`; `None` is the `ValueError`. */
  function DecodeGenreCallback(data: string): (r: Option<int>)
    ensures r.Some? ==> LastField(data) != [] && '_' !in LastField(data)
  {
    ParseInt(LastField(data))
  }

  /** Every genre id survives the trip through its button's callback data. */
  lemma CallbackRoundTrip(id: int)
    ensures DecodeGenreCallback(CallbackData(id)) == Some(id)
  {
    assert CallbackData(id) == "recom_genero" + "_" + IntToDecimal(id);
    LastFieldAfterUnderscore("recom_genero", IntToDecimal(id));
    ParseIntRoundTrip(id);
  }

  /** Data with no digits after its last underscore is refused. */
  lemma CallbackWithoutIdRefused(p: string)
    ensures DecodeGenreCallback(p + "_") == None
  {
    assert (p + "_")[|p + "_"| - 1] == '_';
  }

  /** Line 289: `GENRE_MAP.get(genre_id, "Desconocido")`. */
  function GenreName(genres: seq<Genre>, id: int): (name: string)
    ensures name == UnknownGenre || exists i :: 0 <= i < |genres| && genres[i].id == id && genres[i].name == name
  {
    if genres == [] then UnknownGenre
    else if genres[0].id == id then genres[0].name
    else GenreName(genres[1..], id)
  }

  lemma {:induction false} GenreNameOf(genres: seq<Genre>, j: nat)
    requires DistinctIds(genres) && j < |genres|
    ensures GenreName(genres, genres[j].id) == genres[j].name
  {
    if j > 0 {
      assert genres[0].id != genres[j].id;
      GenreNameOf(genres[1..], j - 1);
    }
  }

  /** Pressing any button of the menu selects that button's genre: its
      callback decodes to the genre's id, and the id looks up the name the
      button shows. */
  lemma ButtonSelectsItsGenre(genres: seq<Genre>, j: nat)
    requires DistinctIds(genres) && j < |Shown(genres)|
    ensures var b := Buttons(Shown(genres))[j];
      DecodeGenreCallback(b.callbackData) == Some(genres[j].id)
      && GenreName(genres, genres[j].id) == b.text
  {
    CallbackRoundTrip(genres[j].id);
    GenreNameOf(genres, j);
  }

  /** What the recommendation callback goes on to do. */
  datatype Recommendation =
    | BadSelection                                   // "Error al procesar la selección"
    | Discover(genreName: string, params: map<string, Param>)

  /** Lines 283-296: decode the id, name it, and ask for popular movies of
      that genre with at least 100 votes. */
  function RecommendRequest(data: string, genres: seq<Genre>): (r: Recommendation)
    ensures r.BadSelection? <==> DecodeGenreCallback(data).None?
    ensures r.Discover? ==>
      r.params.Keys == {"with_genres", "sort_by", "vote_count.gte"}
      && r.params["sort_by"] == Text("popularity.desc")
      && r.params["vote_count.gte"] == Number(100)
  {
    match DecodeGenreCallback(data)
    case None => BadSelection
    case Some(id) =>
      Discover(GenreName(genres, id), map[
        "with_genres" := Text(IntToDecimal(id)),
        "sort_by" := Text("popularity.desc"),
        "vote_count.gte" := Number(100)])
  }

  /** A press of the menu's `j`-th button asks for exactly that genre. */
  lemma ButtonRequestsItsGenre(genres: seq<Genre>, j: nat)
    requires DistinctIds(genres) && j < |Shown(genres)|
    ensures var r := RecommendRequest(Buttons(Shown(genres))[j].callbackData, genres);
      r.Discover? && r.genreName == genres[j].name
      && r.params["with_genres"].Text?
      && ParseInt(r.params["with_genres"].text) == Some(genres[j].id)
  {
    ButtonSelectsItsGenre(genres, j);
    ParseIntRoundTrip(genres[j].id);
  }
}
