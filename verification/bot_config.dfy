/** The chat bot's settings: the list of administrator chat ids read from the comma-separated
    `TELEGRAM_ADMIN_IDS` variable. Loading the environment itself is not modelled. */
module BotConfig {
  import opened Base
  import opened PyText

  /** `int(piece.strip())`: one comma-separated piece read as an id. */
  function Piece(p: string): (r: Result<int>)
    ensures r.Failure? ==> r.error == InvalidInteger
  {
    ParseInt(Strip(p))
  }

  /** `parse` applied to every piece, in order; the first piece it refuses makes the whole
      list fail with that piece's error. */
  function ParseEach(pieces: seq<string>, parse: string -> Result<int>): (r: Result<seq<int>>)
    ensures r.Success? ==> |r.value| == |pieces|
    ensures r.Success? ==> forall i :: 0 <= i < |pieces| ==> parse(pieces[i]) == Success(r.value[i])
    ensures r.Failure? ==> exists i :: 0 <= i < |pieces| && parse(pieces[i]) == Failure(r.error)
  {
    if |pieces| == 0 then Success([])
    else
      match parse(pieces[0])
      case Failure(e) => Failure(e)
      case Success(head) =>
        match ParseEach(pieces[1..], parse)
        case Failure(e) =>
          ghost var k :| 0 <= k < |pieces| - 1 && parse(pieces[1..][k]) == Failure(e);
          assert parse(pieces[k + 1]) == Failure(e);
          Failure(e)
        case Success(tail) => Success([head] + tail)
  }

  /** The list parses exactly when every piece does. */
  lemma {:induction false} ParseEachAccepts(pieces: seq<string>, parse: string -> Result<int>)
    ensures ParseEach(pieces, parse).Success? <==> forall i :: 0 <= i < |pieces| ==> parse(pieces[i]).Success?
    decreases |pieces|
  {
    if |pieces| > 0 {
      ParseEachAccepts(pieces[1..], parse);
      assert forall i :: 1 <= i < |pieces| ==> pieces[1..][i - 1] == pieces[i];
    }
  }

  /** `Settings.admin_ids`: an empty variable gives no ids; otherwise one id per comma-separated
      piece, surrounding whitespace ignored, and any piece that is not an integer — an empty one
      from `",,"` included — makes the whole property raise. */
  function AdminIds(raw: string): (r: Result<seq<int>>)
    ensures raw == "" ==> r == Success([])
    ensures raw != "" ==>
      var ps := Split(raw, ',');
      && (r.Success? <==> EveryPieceParses(ps))
      && (r.Success? ==> |r.value| == |ps| && forall i :: 0 <= i < |ps| ==> Piece(ps[i]) == Success(r.value[i]))
    ensures r.Failure? ==> r.error == InvalidInteger
  {
    if raw == "" then Success([])
    else
      var ps := Split(raw, ',');
      PiecesParse(ps);
      ParseEach(ps, Piece)
  }

  /** Every comma-separated piece reads as an integer. */
  predicate EveryPieceParses(ps: seq<string>) {
    forall i :: 0 <= i < |ps| ==> Piece(ps[i]).Success?
  }

  /** The id list parses exactly when every piece does, and then holds one id per piece. */
  lemma PiecesParse(ps: seq<string>)
    ensures ParseEach(ps, Piece).Success? <==> EveryPieceParses(ps)
    ensures ParseEach(ps, Piece).Success? ==>
      |ParseEach(ps, Piece).value| == |ps| && forall i :: 0 <= i < |ps| ==> Piece(ps[i]) == Success(ParseEach(ps, Piece).value[i])
  {
    ParseEachAccepts(ps, Piece);
  }

  /** The text of an id list as it would be written: the ids joined by commas. */
  function Render(ids: seq<int>): (s: string)
    requires |ids| >= 1
  {
    Join(seq(|ids|, i requires 0 <= i < |ids| => IntToStr(ids[i])), ',')
  }

  /** Writing a non-empty id list out and reading it back gives the list. */
  lemma AdminIdsRoundTrip(ids: seq<int>)
    requires |ids| >= 1
    ensures AdminIds(Render(ids)) == Success(ids)
  {
    var parts := seq(|ids|, i requires 0 <= i < |ids| => IntToStr(ids[i]));
    SplitJoin(parts, ',');
    JoinLength(parts, ',');
    forall i | 0 <= i < |parts| ensures Piece(parts[i]) == Success(ids[i]) {
      IntToStrShape(ids[i]);
      ParseIntRoundTrip(ids[i]);
    }
    ParseEachOf(parts, Piece, ids);
  }

  lemma {:induction false} ParseEachOf(parts: seq<string>, parse: string -> Result<int>, ids: seq<int>)
    requires |parts| == |ids|
    requires forall i :: 0 <= i < |parts| ==> parse(parts[i]) == Success(ids[i])
    ensures ParseEach(parts, parse) == Success(ids)
    decreases |parts|
  {
    if |parts| > 0 {
      ParseEachOf(parts[1..], parse, ids[1..]);
      assert [ids[0]] + ids[1..] == ids;
    }
  }

  lemma {:induction false} JoinLength(parts: seq<string>, sep: char)
    requires |parts| >= 1
    ensures |Join(parts, sep)| >= |parts[0]|
    decreases |parts|
  {
    if |parts| > 1 {
      JoinLength(parts[1..], sep);
    }
  }

  /** Only the stripped text of each piece matters: padding pieces with whitespace changes
      nothing. */
  lemma {:induction false} PaddingIgnored(ps: seq<string>, qs: seq<string>)
    requires |ps| == |qs|
    requires forall i :: 0 <= i < |ps| ==> Strip(ps[i]) == Strip(qs[i])
    ensures ParseEach(ps, Piece) == ParseEach(qs, Piece)
    decreases |ps|
  {
    if |ps| > 0 {
      PaddingIgnored(ps[1..], qs[1..]);
    }
  }

  /** A piece that is empty once stripped, as between the commas of `",,"` or after a trailing
      comma, makes the property raise. */
  lemma EmptyPieceRejected(raw: string, k: nat)
    requires raw != "" && k < |Split(raw, ',')| && AllSpace(Split(raw, ',')[k])
    ensures AdminIds(raw) == Failure(InvalidInteger)
  {
    BlankPieceRejected(Split(raw, ',')[k]);
    ParseEachAccepts(Split(raw, ','), Piece);
  }

  lemma BlankPieceRejected(p: string)
    requires AllSpace(p)
    ensures Piece(p).Failure?
  {
    StripSurrounding(p, "", "");
    assert p + "" + "" == p;
  }
}
