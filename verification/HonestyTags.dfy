/** Reading the engine's JSON snapshot: honesty lookup by nearest prefix, and the values beside it. */
module HonestyTags {
  import opened Prelude
  import opened Text
  import opened Catalog

  /** JSON numbers are finite. */
  datatype JsonNumber = Natural(n: nat) | Negative(i: int) | Fraction(r: real)

  /** Objects keep their fields in document order, as the parser is built to; their keys are distinct. */
  datatype Json =
    | Null
    | Bool(b: bool)
    | Number(number: JsonNumber)
    | Text(text: string)
    | Array(items: seq<Json>)
    | Object(fields: seq<(string, Json)>)

  function FieldOf(fields: seq<(string, Json)>, key: string): Option<Json> {
    if fields == [] then None
    else if fields[0].0 == key then Some(fields[0].1)
    else FieldOf(fields[1..], key)
  }

  ghost predicate DistinctKeys(fields: seq<(string, Json)>) {
    forall i, j :: 0 <= i < j < |fields| ==> fields[i].0 != fields[j].0
  }

  /** A key finds the value beside it, wherever the field stands. */
  lemma {:induction false} FieldMeaning(fields: seq<(string, Json)>, key: string, value: Json)
    requires DistinctKeys(fields)
    ensures FieldOf(fields, key) == Some(value) <==> (key, value) in fields
  {
    if fields != [] {
      assert fields == [fields[0]] + fields[1..];
      FieldMeaning(fields[1..], key, value);
      assert forall f :: f in fields[1..] ==> f.0 != fields[0].0;
    }
  }

  /** `Value::get` with a string key: only objects answer. */
  function Get(json: Json, key: string): Option<Json> {
    if json.Object? then FieldOf(json.fields, key) else None
  }

  function AsF64(json: Json): Option<real> {
    if json.Number? then
      match json.number
      case Natural(n) => Some(n as real)
      case Negative(i) => Some(i as real)
      case Fraction(r) => Some(r)
    else None
  }

  function AsArray(json: Json): Option<seq<Json>> {
    if json.Array? then Some(json.items) else None
  }

  /** Following a dotted path, segment by segment. */
  function Resolve(json: Json, segments: seq<string>): Option<Json>
    decreases |segments|
  {
    if segments == [] then Some(json)
    else
      match Get(json, segments[0])
      case None => None
      case Some(next) => Resolve(next, segments[1..])
  }

  function JsonAt(root: Json, path: string): Option<Json> {
    Resolve(root, Split(path, '.'))
  }

  function TextAt(json: Json, segments: seq<string>): Option<string> {
    match Resolve(json, segments)
    case Some(Text(tag)) => Some(tag)
    case _ => None
  }

  /** The tag of the longest prefix of at most `end` segments that resolves to a string. */
  function NearestTag(sidecar: Json, segments: seq<string>, end: nat): Option<string>
    requires end <= |segments|
  {
    if end == 0 then None
    else if TextAt(sidecar, segments[..end]).Some? then TextAt(sidecar, segments[..end])
    else NearestTag(sidecar, segments, end - 1)
  }

  function TagOf(snapshot: Json, path: string): Option<string> {
    match Get(snapshot, "_honesty")
    case None => None
    case Some(sidecar) => NearestTag(sidecar, Split(path, '.'), |Split(path, '.')|)
  }

  predicate IsExtension(path: string) {
    "_" <= Split(path, '.')[0]
  }

  function HonestyFor(snapshot: Json, path: string): Option<Honesty> {
    match TagOf(snapshot, path)
    case Some(tag) => FromTag(tag)
    case None => if IsExtension(path) then Some(Measured) else None
  }

  // ---- honesty_for -------------------------------------------------------------------

  /** The inner walk: a cursor moved down the sidecar, one segment at a time. */
  method Walk(sidecar: Json, segments: seq<string>) returns (found: Option<Json>)
    ensures found == Resolve(sidecar, segments)
  {
    var current := sidecar;
    var i := 0;
    assert segments[0..] == segments;
    while i < |segments|
      invariant 0 <= i <= |segments|
      invariant Resolve(current, segments[i..]) == Resolve(sidecar, segments)
    {
      assert segments[i..][1..] == segments[i + 1..];
      match Get(current, segments[i]) {
        case Some(next) => current := next;
        case None => return None;
      }
      i := i + 1;
    }
    found := Some(current);
  }

  /** `honesty_for`: one walk per prefix, the whole path to begin with. */
  method LookUpHonesty(snapshot: Json, path: string) returns (honesty: Option<Honesty>)
    ensures honesty == HonestyFor(snapshot, path)
  {
    hide Split, FromTag, Resolve;
    var segments := Split(path, '.');
    match Get(snapshot, "_honesty") {
      case Some(sidecar) =>
        var end := |segments|;
        while end > 0
          invariant 0 <= end <= |segments|
          invariant NearestTag(sidecar, segments, end) == NearestTag(sidecar, segments, |segments|)
        {
          var found := Walk(sidecar, segments[..end]);
          if found.Some? && found.value.Text? {
            return FromTag(found.value.text);
          }
          end := end - 1;
        }
      case None =>
    }
    honesty := if "_" <= segments[0] then Some(Measured) else None;
  }

  /** A prefix of the path that carries a tag, with nothing tagged between it and the path itself. */
  ghost predicate IsNearest(sidecar: Json, segments: seq<string>, end: nat, tag: string) {
    && 1 <= end <= |segments|
    && TextAt(sidecar, segments[..end]) == Some(tag)
    && forall longer :: end < longer <= |segments| ==> TextAt(sidecar, segments[..longer]) == None
  }

  ghost predicate Untagged(sidecar: Json, segments: seq<string>) {
    forall end: nat :: 1 <= end <= |segments| ==> TextAt(sidecar, segments[..end]) == None
  }

  lemma {:induction false} NearestTagMeaning(sidecar: Json, segments: seq<string>, end: nat)
    requires end <= |segments|
    requires forall longer :: end < longer <= |segments| ==> TextAt(sidecar, segments[..longer]) == None
    ensures var tag := NearestTag(sidecar, segments, end);
      if tag.Some? then exists e :: IsNearest(sidecar, segments, e, tag.value)
      else Untagged(sidecar, segments)
  {
    hide TextAt;
    if end > 0 {
      if TextAt(sidecar, segments[..end]).Some? {
        assert IsNearest(sidecar, segments, end, TextAt(sidecar, segments[..end]).value);
      } else {
        NearestTagMeaning(sidecar, segments, end - 1);
      }
    }
  }

  lemma NearestUnique(sidecar: Json, segments: seq<string>, end: nat, tag: string)
    requires IsNearest(sidecar, segments, end, tag)
    ensures NearestTag(sidecar, segments, |segments|) == Some(tag)
  {
    hide TextAt;
    NearestTagMeaning(sidecar, segments, |segments|);
    NearestBelow(sidecar, segments, end, tag, |segments|);
  }

  lemma {:induction false} NearestBelow(sidecar: Json, segments: seq<string>, end: nat, tag: string, from: nat)
    requires IsNearest(sidecar, segments, end, tag) && end <= from <= |segments|
    ensures NearestTag(sidecar, segments, from) == Some(tag)
  {
    hide TextAt;
    if from > end {
      NearestBelow(sidecar, segments, end, tag, from - 1);
    }
  }

  /**
   The closest tag that exists decides, whatever enclosing sections say: a nearest `mock` (or any
   unknown word) blocks the field, and with no tag anywhere only `_` extensions count as measured.
   */
  lemma HonestyForMeaning(snapshot: Json, path: string)
    ensures var segments := Split(path, '.');
      var sidecar := Get(snapshot, "_honesty");
      && (forall end, tag :: sidecar.Some? && IsNearest(sidecar.value, segments, end, tag) ==>
            HonestyFor(snapshot, path) == FromTag(tag))
      && (sidecar.None? || Untagged(sidecar.value, segments) ==>
            HonestyFor(snapshot, path) == if path != "" && path[0] == '_' then Some(Measured) else None)
  {
    FirstSegment(path);
    hide Split, TextAt, FromTag, IsNearest, IsExtension;
    var segments, sidecar := Split(path, '.'), Get(snapshot, "_honesty");
    if sidecar.Some? {
      forall end, tag | IsNearest(sidecar.value, segments, end, tag)
        ensures HonestyFor(snapshot, path) == FromTag(tag)
      {
        NearestUnique(sidecar.value, segments, end, tag);
      }
      if Untagged(sidecar.value, segments) {
        NothingTagged(sidecar.value, segments, |segments|);
      }
    }
  }

  /** A path's first segment starts as the path does. */
  lemma FirstSegment(path: string)
    ensures IsExtension(path) <==> path != "" && path[0] == '_'
  {
    var first := Split(path, '.')[0];
    if path != "" && path[0] != '.' {
      assert first[0] == path[0];
    }
  }

  lemma {:induction false} NothingTagged(sidecar: Json, segments: seq<string>, end: nat)
    requires end <= |segments|
    requires Untagged(sidecar, segments)
    ensures NearestTag(sidecar, segments, end) == None
  {
    hide TextAt;
    if end > 0 {
      NothingTagged(sidecar, segments, end - 1);
    }
  }

  lemma {:induction false} OneSegment(segment: string, rest: string)
    requires '.' !in segment
    ensures Split(segment, '.') == [segment]
    ensures Split(segment + "." + rest, '.') == [segment] + Split(rest, '.')
  {
    if segment != "" {
      OneSegment(segment[1..], rest);
      assert (segment + "." + rest)[1..] == segment[1..] + "." + rest;
      assert segment == [segment[0]] + segment[1..];
      assert ([segment[1..]] + Split(rest, '.'))[1..] == Split(rest, '.');
    } else {
      assert ("" + "." + rest)[1..] == rest;
    }
  }

  lemma ResolveTwo(root: Json, section: string, field: string)
    ensures Resolve(root, [section, field]) == if Get(root, section).Some? then Get(Get(root, section).value, field) else None
    ensures Resolve(root, [section]) == Get(root, section)
  {
    hide Get;
    assert [section, field][1..] == [field] && [field][1..] == [] && [section][1..] == [];
    match Get(root, section) {
      case Some(inner) =>
        assert Resolve(inner, [field]) == match Get(inner, field) case Some(v) => Resolve(v, []) case None => None;
      case None =>
    }
  }

  /** A field of a section, read off the tree: the value there, and whose tag speaks for it. */
  lemma FieldOfSection(root: Json, section: string, field: string)
    requires '.' !in section && '.' !in field
    ensures var path := section + "." + field;
      var tags := Get(root, "_honesty");
      && JsonAt(root, path) == (if Get(root, section).Some? then Get(Get(root, section).value, field) else None)
      && (forall sidecar, inner, tag ::
            tags == Some(sidecar) && Get(sidecar, section) == Some(inner) && Get(inner, field) == Some(Text(tag)) ==>
            HonestyFor(root, path) == FromTag(tag))
      && (forall sidecar, tag :: tags == Some(sidecar) && Get(sidecar, section) == Some(Text(tag)) ==>
            HonestyFor(root, path) == FromTag(tag))
  {
    hide FromTag, Get, Resolve;
    OneSegment(section, field);
    OneSegment(field, "");
    var path := section + "." + field;
    var segments := Split(path, '.');
    assert segments == [section, field];
    hide Split;
    ResolveTwo(root, section, field);
    var tags := Get(root, "_honesty");
    if tags.Some? {
      ResolveTwo(tags.value, section, field);
      TextHasNoFields(Get(tags.value, section), field);
      assert segments[..2] == segments && segments[..1] == [section];
      assert NearestTag(tags.value, segments, 2) ==
        if TextAt(tags.value, segments).Some? then TextAt(tags.value, segments) else NearestTag(tags.value, segments, 1);
      assert NearestTag(tags.value, segments, 1) ==
        if TextAt(tags.value, [section]).Some? then TextAt(tags.value, [section]) else NearestTag(tags.value, segments, 0);
    }
  }

  lemma TextHasNoFields(value: Option<Json>, field: string)
    ensures value.Some? && value.value.Text? ==> Get(value.value, field) == None
  {
  }
}
