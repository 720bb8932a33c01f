/**
  Normalisation of the query parameters of the list endpoints: offset and
  limit are passed on only when positive, and the `since`, `tags-and` and
  `tags-or` values are parsed leniently (blank means "no filter", a present
  value that does not parse is a bad request).
 */
module Listing {
  import opened Domain
  import opened Text

  /** The host's parsers for ISO-8601 dates and JSON tag maps. */
  datatype Parsers = Parsers(parseDate: string -> Option<Date>, parseTags: string -> Option<Tags>)

  /** A leniently parsed optional parameter. */
  datatype Lenient<T> = Absent | Parsed(value: T) | Malformed {

    /** The filter to pass on: the parsed value, or none when the parameter was absent. */
    function ToOption(): Option<T>
      requires !Malformed?
    {
      if Parsed? then Some(value) else None
    }
  }

  /**
    `trimToNone(raw).map(parse)`: absent for a null or blank value, otherwise
    the parser's verdict on the trimmed value.
   */
  function ParseLenient<T>(raw: Option<string>, parse: string -> Option<T>): (r: Lenient<T>)
    ensures r.Absent? <==> raw.None? || Blank(raw.value)
    ensures r.Malformed? <==> raw.Some? && !Blank(raw.value) && parse(Trim(raw.value)).None?
    ensures r.Parsed? ==> parse(Trim(raw.value)) == Some(r.value)
  {
    TrimToNoneSpec(raw);
    match TrimToNone(raw)
    case None => Absent
    case Some(s) =>
      match parse(s)
      case None => Malformed
      case Some(v) => Parsed(v)
  }

  /** `n > 0 ? some(n) : none()`. */
  function PositiveOrNone(n: int): (r: Option<int>)
    ensures r.Some? <==> n > 0
    ensures r.Some? ==> r.value == n
  {
    if n > 0 then Some(n) else None
  }

  /** What a list endpoint hands to the service's filtered listing. */
  datatype ListQuery = ListQuery(parent: Option<int>, offset: Option<int>, limit: Option<int>,
                                 since: Option<Date>, tagsAnd: Option<Tags>, tagsOr: Option<Tags>)

  /**
    The query of a list endpoint, or none when one of `since`, `tags-and` or
    `tags-or` is present but does not parse.
   */
  function NormaliseQuery(parsers: Parsers, parent: Option<int>, limit: int, offset: int,
                          date: Option<string>, tagsAnd: Option<string>, tagsOr: Option<string>)
    : (r: Option<ListQuery>)
    ensures r.None? <==>
      || ParseLenient(date, parsers.parseDate).Malformed?
      || ParseLenient(tagsAnd, parsers.parseTags).Malformed?
      || ParseLenient(tagsOr, parsers.parseTags).Malformed?
    ensures r.Some? ==>
      && r.value.parent == parent
      && (r.value.offset.Some? <==> offset > 0) && (r.value.offset.Some? ==> r.value.offset.value == offset)
      && (r.value.limit.Some? <==> limit > 0) && (r.value.limit.Some? ==> r.value.limit.value == limit)
      && (date.None? || Blank(date.value) ==> r.value.since.None?)
      && (tagsAnd.None? || Blank(tagsAnd.value) ==> r.value.tagsAnd.None?)
      && (tagsOr.None? || Blank(tagsOr.value) ==> r.value.tagsOr.None?)
      && (date.Some? && !Blank(date.value) ==> r.value.since == parsers.parseDate(Trim(date.value)))
      && (tagsAnd.Some? && !Blank(tagsAnd.value) ==> r.value.tagsAnd == parsers.parseTags(Trim(tagsAnd.value)))
      && (tagsOr.Some? && !Blank(tagsOr.value) ==> r.value.tagsOr == parsers.parseTags(Trim(tagsOr.value)))
  {
    var since := ParseLenient(date, parsers.parseDate);
    var all := ParseLenient(tagsAnd, parsers.parseTags);
    var any := ParseLenient(tagsOr, parsers.parseTags);
    if since.Malformed? || all.Malformed? || any.Malformed? then None
    else Some(ListQuery(parent, PositiveOrNone(offset), PositiveOrNone(limit),
                        since.ToOption(), all.ToOption(), any.ToOption()))
  }
}
