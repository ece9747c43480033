/**
 The query API read against query text: what a printed query is accepted as, whatever subset of the keys
 it has, in whatever order and however often.
 */
module QueryText {
  import opened Prelude
  import opened Text
  import opened Catalog
  import opened CatalogNames
  import opened CatalogText
  import opened Store
  import opened Params

  datatype Pair = SeriesPair(names: seq<string>) | FromPair(ms: int) | ToPair(ms: int) | StepPair(s: int)

  function IntText(n: int): string {
    if n < 0 then "-" + Decimal(-n) else Decimal(n)
  }

  function NamesText(names: seq<string>): string {
    if names == [] then "" else Join(names, ',')
  }

  function PairText(pair: Pair): string {
    match pair
    case SeriesPair(names) => "series=" + NamesText(names)
    case FromPair(ms) => "from_ms=" + IntText(ms)
    case ToPair(ms) => "to_ms=" + IntText(ms)
    case StepPair(s) => "step_s=" + IntText(s)
  }

  function PairTexts(pairs: seq<Pair>): (texts: seq<string>)
    ensures |texts| == |pairs|
  {
    if pairs == [] then [] else [PairText(pairs[0])] + PairTexts(pairs[1..])
  }

  function QueryOf(pairs: seq<Pair>): string {
    if pairs == [] then "" else Join(PairTexts(pairs), '&')
  }

  /** What each key was last given as. */
  function LastNames(pairs: seq<Pair>): Option<seq<string>> {
    if pairs == [] then None
    else if pairs[|pairs| - 1].SeriesPair? then Some(pairs[|pairs| - 1].names)
    else LastNames(pairs[..|pairs| - 1])
  }

  function LastFrom(pairs: seq<Pair>): Option<int> {
    if pairs == [] then None
    else if pairs[|pairs| - 1].FromPair? then Some(pairs[|pairs| - 1].ms)
    else LastFrom(pairs[..|pairs| - 1])
  }

  function LastTo(pairs: seq<Pair>): Option<int> {
    if pairs == [] then None
    else if pairs[|pairs| - 1].ToPair? then Some(pairs[|pairs| - 1].ms)
    else LastTo(pairs[..|pairs| - 1])
  }

  function LastStep(pairs: seq<Pair>): Option<int> {
    if pairs == [] then None
    else if pairs[|pairs| - 1].StepPair? then Some(pairs[|pairs| - 1].s)
    else LastStep(pairs[..|pairs| - 1])
  }

  function Or(value: Option<int>, other: int): int {
    if value.Some? then value.value else other
  }

  /** Integers that fit, and at least one name, each of some catalogued series. */
  ghost predicate Sensible(pairs: seq<Pair>) {
    forall pair :: pair in pairs ==>
      match pair
      case SeriesPair(names) => names != [] && forall name :: name in names ==> exists e :: e in All() && e.name == name
      case FromPair(ms) => FitsI64(ms)
      case ToPair(ms) => FitsI64(ms)
      case StepPair(s) => FitsI64(s)
  }

  // ---- text ------------------------------------------------------------------------------------

  lemma {:induction false} SplitPiece(piece: string, rest: string, sep: char)
    requires sep !in piece
    ensures Split(piece, sep) == [piece]
    ensures Split(piece + [sep] + rest, sep) == [piece] + Split(rest, sep)
  {
    if piece == "" {
      assert ([sep] + rest)[1..] == rest && "" + [sep] + rest == [sep] + rest;
    } else {
      SplitPiece(piece[1..], rest, sep);
      var text := piece + [sep] + rest;
      assert text[1..] == piece[1..] + [sep] + rest;
      assert piece == [piece[0]] + piece[1..];
      assert ([piece[1..]] + Split(rest, sep))[1..] == Split(rest, sep);
    }
  }

  /** Splitting undoes joining. */
  lemma {:induction false} SplitOfJoin(pieces: seq<string>, sep: char)
    requires pieces != [] && forall piece :: piece in pieces ==> sep !in piece
    ensures Split(Join(pieces, sep), sep) == pieces
  {
    if |pieces| == 1 {
      SplitPiece(pieces[0], "", sep);
    } else {
      var rest := pieces[1..];
      assert pieces == [pieces[0]] + rest;
      SplitOfJoin(rest, sep);
      SplitPiece(pieces[0], Join(rest, sep), sep);
    }
  }

  lemma {:induction false} AllNonEmpty(pieces: seq<string>)
    requires "" !in pieces
    ensures NonEmpty(pieces) == pieces
  {
    if pieces != [] {
      assert pieces == [pieces[0]] + pieces[1..];
      AllNonEmpty(pieces[1..]);
    }
  }

  lemma {:induction false} SplitOnceAt(key: string, value: string)
    requires '=' !in key
    ensures SplitOnce(key + "=" + value, '=') == (key, value)
  {
    var pair := key + "=" + value;
    if key == "" {
      assert pair == "=" + value && pair[1..] == value;
    } else {
      assert pair[1..] == key[1..] + "=" + value;
      SplitOnceAt(key[1..], value);
      assert key == [key[0]] + key[1..];
    }
  }

  lemma {:induction false} JoinAvoids(pieces: seq<string>, sep: char, c: char)
    requires pieces != [] && c != sep && forall piece :: piece in pieces ==> c !in piece
    ensures c !in Join(pieces, sep)
  {
    if |pieces| > 1 {
      var rest := pieces[1..];
      assert pieces == [pieces[0]] + rest;
      JoinAvoids(rest, sep, c);
    }
  }

  lemma IntTextPlain(n: int)
    ensures IntText(n) != "" && '&' !in IntText(n)
    ensures FitsI64(n) ==> ParseI64(IntText(n)) == Some(n)
  {
    if FitsI64(n) {
      IntegerRoundTrip(n);
    }
  }

  // ---- one pair, then all of them -----------------------------------------------------------------

  ghost predicate PlainNames(names: seq<string>) {
    names != [] && forall name :: name in names ==> name != "" && ',' !in name && '&' !in name && Lookup(name).Some?
  }

  lemma NamesArePlain(names: seq<string>)
    requires names != [] && forall name :: name in names ==> exists e :: e in All() && e.name == name
    ensures PlainNames(names)
  {
    hide All, Lookup;
    forall name | name in names
      ensures name != "" && ',' !in name && '&' !in name && Lookup(name).Some?
    {
      var e :| e in All() && e.name == name;
      NamePlain(e);
      EntryFound(e);
    }
  }

  lemma NamesBack(names: seq<string>)
    requires PlainNames(names)
    ensures ResolveSeries(Some(NamesText(names))) == Ok(names)
    ensures '&' !in NamesText(names)
  {
    hide Lookup;
    SplitOfJoin(names, ',');
    AllNonEmpty(names);
    AllKnown(names);
    JoinAvoids(names, ',', '&');
  }

  lemma {:induction false} AllKnown(names: seq<string>)
    requires forall name :: name in names ==> Lookup(name).Some?
    ensures Known(names) == names && Unknown(names) == []
  {
    hide Lookup;
    if names != [] {
      assert names == [names[0]] + names[1..];
      AllKnown(names[1..]);
    }
  }

  function Take(given: Given, pair: Pair): Given {
    match pair
    case SeriesPair(names) => given.(series := Some(NamesText(names)))
    case FromPair(ms) => given.(fromMs := Some(ms))
    case ToPair(ms) => given.(toMs := Some(ms))
    case StepPair(s) => given.(stepS := s)
  }

  lemma PairTaken(given: Given, pair: Pair)
    requires pair.FromPair? ==> FitsI64(pair.ms)
    requires pair.ToPair? ==> FitsI64(pair.ms)
    requires pair.StepPair? ==> FitsI64(pair.s)
    ensures TakePair(given, PairText(pair)) == Ok(Take(given, pair))
  {
    hide SplitOnce, ParseI64, NamesText, IntText;
    assert |"from_ms"| == 7 && |"to_ms"| == 5 && |"step_s"| == 6 && |"series"| == 6 && "step_s"[1] == 't' && "series"[1] == 'e';
    assert "series" + "=" == "series=" && "from_ms" + "=" == "from_ms=" && "to_ms" + "=" == "to_ms=" && "step_s" + "=" == "step_s=";
    match pair {
      case SeriesPair(names) => SplitOnceAt("series", NamesText(names));
      case FromPair(ms) =>
        SplitOnceAt("from_ms", IntText(ms));
        IntTextPlain(ms);
      case ToPair(ms) =>
        SplitOnceAt("to_ms", IntText(ms));
        IntTextPlain(ms);
      case StepPair(s) =>
        SplitOnceAt("step_s", IntText(s));
        IntTextPlain(s);
    }
  }

  function TakeAll(given: Given, pairs: seq<Pair>): Given
    decreases |pairs|
  {
    if pairs == [] then given else TakeAll(Take(given, pairs[0]), pairs[1..])
  }

  lemma {:induction false} PairsTaken(given: Given, pairs: seq<Pair>)
    requires Sensible(pairs)
    ensures TakePairs(given, PairTexts(pairs)) == Ok(TakeAll(given, pairs))
    decreases |pairs|
  {
    hide TakePair, PairText, Take, All;
    if pairs != [] {
      var rest := PairTexts(pairs[1..]);
      assert pairs[0] in pairs && forall pair :: pair in pairs[1..] ==> pair in pairs;
      PairTaken(given, pairs[0]);
      PairsTaken(Take(given, pairs[0]), pairs[1..]);
      assert ([PairText(pairs[0])] + rest)[1..] == rest;
    }
  }

  lemma {:induction false} TakeAllSnoc(given: Given, front: seq<Pair>, last: Pair)
    ensures TakeAll(given, front + [last]) == Take(TakeAll(given, front), last)
    decreases |front|
  {
    hide Take;
    if front == [] {
      assert (front + [last])[1..] == [];
    } else {
      assert (front + [last])[1..] == front[1..] + [last];
      TakeAllSnoc(Take(given, front[0]), front[1..], last);
    }
  }

  /** Taking the pairs in order leaves what each key was last given as. */
  lemma {:induction false} TakenLast(pairs: seq<Pair>)
    ensures TakeAll(NOTHING_GIVEN, pairs) ==
      Given(if LastNames(pairs).Some? then Some(NamesText(LastNames(pairs).value)) else None,
            LastFrom(pairs), LastTo(pairs), Or(LastStep(pairs), 1))
  {
    if pairs != [] {
      var front, last := pairs[..|pairs| - 1], pairs[|pairs| - 1];
      assert pairs == front + [last];
      TakenLast(front);
      TakeAllSnoc(NOTHING_GIVEN, front, last);
      hide NamesText, TakeAll;
    }
  }

  lemma {:induction false} LastNamesGiven(pairs: seq<Pair>)
    ensures LastNames(pairs).Some? ==> SeriesPair(LastNames(pairs).value) in pairs
  {
    if pairs != [] {
      var front := pairs[..|pairs| - 1];
      LastNamesGiven(front);
      assert pairs == front + [pairs[|pairs| - 1]];
    }
  }

  lemma Heads()
    ensures '&' !in "series=" && '&' !in "from_ms=" && '&' !in "to_ms=" && '&' !in "step_s="
  {
  }

  lemma PairTextPlain(pair: Pair)
    requires pair.SeriesPair? ==> PlainNames(pair.names)
    ensures PairText(pair) != "" && '&' !in PairText(pair)
  {
    hide NamesText, IntText, PlainNames, ResolveSeries, ParseI64, FitsI64;
    Heads();
    match pair {
      case SeriesPair(names) => NamesBack(names);
      case FromPair(ms) => IntTextPlain(ms);
      case ToPair(ms) => IntTextPlain(ms);
      case StepPair(s) => IntTextPlain(s);
    }
  }

  lemma {:induction false} PairTextsPlain(pairs: seq<Pair>)
    requires Sensible(pairs)
    ensures forall text :: text in PairTexts(pairs) ==> text != "" && '&' !in text
  {
    hide PairText, All, PlainNames;
    if pairs != [] {
      assert pairs[0] in pairs && forall pair :: pair in pairs[1..] ==> pair in pairs;
      if pairs[0].SeriesPair? {
        NamesArePlain(pairs[0].names);
      }
      PairTextPlain(pairs[0]);
      PairTextsPlain(pairs[1..]);
    }
  }

  /** A printed query is read pair for pair. */
  lemma QueryRead(pairs: seq<Pair>)
    requires Sensible(pairs)
    ensures NonEmpty(Split(QueryOf(pairs), '&')) == PairTexts(pairs)
  {
    hide PairText, All;
    if pairs == [] {
      assert Split("", '&') == [""];
      assert NonEmpty([""]) == [] + NonEmpty([""][1..]);
    } else {
      PairTextsPlain(pairs);
      SplitOfJoin(PairTexts(pairs), '&');
      AllNonEmpty(PairTexts(pairs));
    }
  }

  lemma NamesResolved(pairs: seq<Pair>)
    requires Sensible(pairs)
    ensures ResolveSeries(if LastNames(pairs).Some? then Some(NamesText(LastNames(pairs).value)) else None) ==
      Ok(if LastNames(pairs).Some? then LastNames(pairs).value else Names(All()))
  {
    hide All, NamesText;
    LastNamesGiven(pairs);
    if LastNames(pairs).Some? {
      NamesArePlain(LastNames(pairs).value);
      NamesBack(LastNames(pairs).value);
    }
  }

  // ---- what a query is accepted as ------------------------------------------------------------------

  /**
   Exactly when a printed query is accepted, and as what. A key given more than once counts as given last;
   a missing one means all series in catalog order, the present, a quarter of an hour before the end, or
   one second.
   */
  lemma QueryAccepted(pairs: seq<Pair>, now: Millis)
    requires Sensible(pairs)
    ensures var names := if LastNames(pairs).Some? then LastNames(pairs).value else Names(All());
      var to := Or(LastTo(pairs), now);
      var from := Or(LastFrom(pairs), to - 900_000);
      var step := Or(LastStep(pairs), 1);
      var r := ParseParams(QueryOf(pairs), now);
      && (r.Ok? <==>
            && FitsI64(from) && from < to && step >= 1
            && FitsI64(to - from) && FitsI64(step * 1000)
            && (to - from) / (step * 1000) <= 20_000)
      && (r.Ok? ==> r.value == Params(names, from, to, step))
  {
    hide All, Split, NonEmpty, TakePairs, ResolveSeries, LastNames, LastFrom, LastTo, LastStep, Sensible;
    QueryRead(pairs);
    PairsTaken(NOTHING_GIVEN, pairs);
    TakenLast(pairs);
    NamesResolved(pairs);
    LastFits(pairs);
  }

  lemma {:induction false} LastFits(pairs: seq<Pair>)
    requires Sensible(pairs)
    ensures LastFrom(pairs).Some? ==> FitsI64(LastFrom(pairs).value)
  {
    hide All;
    if pairs != [] {
      var front := pairs[..|pairs| - 1];
      assert pairs[|pairs| - 1] in pairs && forall pair :: pair in front ==> pair in pairs;
      LastFits(front);
    }
  }

  /** Why a printed query is refused: the first thing wrong with its range, in this order. */
  lemma QueryRefused(pairs: seq<Pair>, now: Millis)
    requires Sensible(pairs)
    ensures var to := Or(LastTo(pairs), now);
      var from := Or(LastFrom(pairs), to - 900_000);
      var step := Or(LastStep(pairs), 1);
      var r := ParseParams(QueryOf(pairs), now);
      && (r == Err(ToOutOfRange) <==> !FitsI64(from))
      && (r == Err(ToNotAfterFrom) <==> FitsI64(from) && to <= from)
      && (r == Err(StepTooSmall) <==> FitsI64(from) && from < to && step < 1)
      && (r == Err(RangeTooLarge) <==> FitsI64(from) && from < to && step >= 1 && !FitsI64(to - from))
      && (r == Err(StepTooLarge) <==> FitsI64(from) && from < to && step >= 1 && FitsI64(to - from) && !FitsI64(step * 1000))
      && (forall points :: r == Err(TooManyPoints(points)) <==>
            && FitsI64(from) && from < to && step >= 1 && FitsI64(to - from) && FitsI64(step * 1000)
            && points == (to - from) / (step * 1000) && points > 20_000)
  {
    hide All, Split, NonEmpty, TakePairs, ResolveSeries, LastNames, LastFrom, LastTo, LastStep, Sensible;
    QueryRead(pairs);
    PairsTaken(NOTHING_GIVEN, pairs);
    TakenLast(pairs);
    NamesResolved(pairs);
    LastFits(pairs);
  }

  // ---- what is refused whatever else the query says --------------------------------------------------

  lemma {:induction false} FirstRefusal(given: Given, front: seq<string>, bad: string, rest: seq<string>, error: Error)
    requires TakePairs(given, front).Ok? && forall g :: TakePair(g, bad) == Err(error)
    ensures TakePairs(given, front + [bad] + rest) == Err(error)
    decreases |front|
  {
    hide TakePair;
    var all := front + [bad] + rest;
    if front != [] {
      assert all[1..] == front[1..] + [bad] + rest;
      FirstRefusal(TakePair(given, front[0]).value, front[1..], bad, rest, error);
    }
  }

  /** A key outside the vocabulary refuses the query by its name, however good the rest is. */
  lemma UnknownKeyRefused(before: seq<Pair>, key: string, value: string, after: seq<string>, now: Millis)
    requires Sensible(before) && forall text :: text in after ==> '&' !in text && text != ""
    requires key !in {"series", "from_ms", "to_ms", "step_s"} && '=' !in key && '&' !in key && '&' !in value
    ensures ParseParams(Join(PairTexts(before) + [key + "=" + value] + after, '&'), now) == Err(UnknownParameter(key))
  {
    hide All, PairText, ParseI64;
    var bad := key + "=" + value;
    var texts := PairTexts(before) + [bad] + after;
    PairTextsPlain(before);
    SplitOfJoin(texts, '&');
    AllNonEmpty(texts);
    PairsTaken(NOTHING_GIVEN, before);
    SplitOnceAt(key, value);
    FirstRefusal(NOTHING_GIVEN, PairTexts(before), bad, after, UnknownParameter(key));
  }

  /** So does a text that is no `i64` where one is called for. */
  lemma MalformedIntegerRefused(before: seq<Pair>, key: string, value: string, after: seq<string>, now: Millis)
    requires Sensible(before) && forall text :: text in after ==> '&' !in text && text != ""
    requires key in {"from_ms", "to_ms", "step_s"} && '&' !in value && ParseI64(value) == None
    ensures ParseParams(Join(PairTexts(before) + [key + "=" + value] + after, '&'), now) == Err(NotAnInteger(key))
  {
    hide All, PairText, ParseI64;
    KeysPlain();
    var bad := key + "=" + value;
    var texts := PairTexts(before) + [bad] + after;
    PairTextsPlain(before);
    SplitOfJoin(texts, '&');
    AllNonEmpty(texts);
    PairsTaken(NOTHING_GIVEN, before);
    SplitOnceAt(key, value);
    FirstRefusal(NOTHING_GIVEN, PairTexts(before), bad, after, NotAnInteger(key));
  }

  lemma KeysPlain()
    ensures forall key :: key in {"from_ms", "to_ms", "step_s"} ==> '=' !in key && '&' !in key && key != "series"
  {
  }

  ghost predicate Stranger(name: string) {
    forall e :: e in All() ==> e.name != name
  }

  lemma {:induction false} UnknownMeaning(names: seq<string>)
    ensures forall name :: name in Unknown(names) <==> name in names && Stranger(name)
  {
    hide All, Stranger, Lookup;
    if names != [] {
      assert names == [names[0]] + names[1..];
      UnknownMeaning(names[1..]);
      LookupMeaning(names[0]);
    }
  }

  lemma LookupMeaning(name: string)
    ensures Lookup(name).None? <==> Stranger(name)
  {
    hide All;
    FindMeaning(All(), name);
  }

  lemma OnePair(key: string, value: string)
    requires '=' !in key && '&' !in key && '&' !in value
    ensures NonEmpty(Split(key + "=" + value, '&')) == [key + "=" + value]
    ensures SplitOnce(key + "=" + value, '=') == (key, value)
  {
    var pair := key + "=" + value;
    SplitPiece(pair, "", '&');
    AllNonEmpty([pair]);
    SplitOnceAt(key, value);
  }

  /** Names the catalog does not have refuse the query, and they alone are quoted back. */
  lemma UnknownSeriesRefused(names: seq<string>, now: Millis)
    requires names != [] && forall name :: name in names ==> name != "" && ',' !in name && '&' !in name
    ensures var r := ParseParams("series=" + Join(names, ','), now);
      && ((exists name :: name in names && Stranger(name)) <==> r.Err? && r.error.UnknownSeries?)
      && (r.Err? && r.error.UnknownSeries? ==> forall name :: name in r.error.names <==> name in names && Stranger(name))
  {
    hide All, Stranger, Lookup, TakePairs, Split, NonEmpty, CheckRange, Join, Unknown, ResolveSeries;
    var value := Join(names, ',');
    SeriesQueryRead(names, value, "series=" + value);
    UnknownMeaning(names);
    NamesRead(names);
    RangeErrors(now);
    var unknown := Unknown(names);
    if unknown != [] {
      assert unknown[0] in unknown;
    }
  }

  lemma RangeErrors(now: Millis)
    ensures forall series, given :: CheckRange(series, given, now).Err? ==> !CheckRange(series, given, now).error.UnknownSeries?
  {
  }

  lemma NamesRead(names: seq<string>)
    requires names != [] && forall name :: name in names ==> name != "" && ',' !in name
    ensures var resolved := ResolveSeries(Some(Join(names, ',')));
      if Unknown(names) == [] then resolved.Err? ==> resolved.error == NoSeries else resolved == Err(UnknownSeries(Unknown(names)))
  {
    SplitOfJoin(names, ',');
    AllNonEmpty(names);
    hide All, Lookup, Split, NonEmpty, Join, Unknown, Known;
  }

  lemma SeriesQueryRead(names: seq<string>, value: string, query: string)
    requires names != [] && value == Join(names, ',') && query == "series=" + value
    requires forall name :: name in names ==> '&' !in name
    ensures TakePairs(NOTHING_GIVEN, NonEmpty(Split(query, '&'))) == Ok(NOTHING_GIVEN.(series := Some(value)))
  {
    JoinAvoids(names, ',', '&');
    assert '=' !in "series" && '&' !in "series";
    OnePair("series", value);
    assert "series" + "=" + value == query;
    OneSeriesPair(query, value);
  }

  lemma OneSeriesPair(query: string, value: string)
    requires SplitOnce(query, '=') == ("series", value)
    ensures TakePairs(NOTHING_GIVEN, [query]) == Ok(NOTHING_GIVEN.(series := Some(value)))
  {
    hide SplitOnce;
    assert [query][1..] == [];
    assert TakePair(NOTHING_GIVEN, query) == Ok(NOTHING_GIVEN.(series := Some(value)));
  }
}
