/**
 * The query-string helpers of `HttpRequestExtensions`: three list parsers that
 * split a raw query value and yield its pieces, and the pagination resolver.
 */
module HttpRequestExtensions {
  import opened Results
  import opened Int32
  import opened StringSplit
  import opened IntParse
  import opened Linq
  import opened PaginationModel

  /**
   * The request's query collection, reduced to the raw string that
   * `request.Query[key].ToString()` gives for each key present.
   */
  type Query = map<string, string>

  const DefaultSeparator: string := ","
  const DefaultIndexParameterName: string := "pageIndex"
  const DefaultSizeParameterName: string := "pageSize"
  const DefaultMaxPageSize: Int32 := 20
  /** The page index used when the index parameter is absent or does not parse. */
  const DefaultPageIndex: Int32 := 1
  /** The page size used when the size parameter is absent or does not parse. */
  const DefaultPageSize: Int32 := 20

  /** `request.Query[key].ToString()`: the empty string for a missing key. */
  function QueryValue(query: Query, key: string): string {
    if key in query then query[key] else ""
  }

  /** The pieces a list parser walks over: none for an empty raw value, otherwise `raw.Split(separator)`. */
  function Tokens(raw: string, separator: string): (r: seq<string>)
    ensures raw == "" ==> r == []
    ensures raw != "" ==> |r| >= 1 && Join(r, separator) == raw
  {
    if raw == "" then [] else JoinSplit(raw, separator); Split(raw, separator)
  }

  /** `ParseStringList`: every piece of the split raw value, in order. */
  method ParseStringList(query: Query, queryKey: Option<string>, separator: string)
    returns (r: Result<seq<string>>)
    ensures queryKey.None? ==> r == Err(ArgumentNullException("queryKey"))
    ensures queryKey.Some? ==> r == Ok(Tokens(QueryValue(query, queryKey.value), separator))
  {
    if queryKey.None? {
      return Err(ArgumentNullException("queryKey"));
    }
    var values := QueryValue(query, queryKey.value);
    if values == "" {
      return Ok([]);
    }
    var items := Split(values, separator);
    var result: seq<string> := [];
    for i := 0 to |items|
      invariant result == items[..i]
    {
      result := result + [items[i]];
    }
    assert items[..|items|] == items;
    return Ok(result);
  }

  /**
   * The loop shared by `ParseIntegerList` and `ParseDoubleList`: the pieces of
   * the split raw value that `tryParse` accepts, converted, in order; the
   * others are skipped.
   */
  method ParseConvertedList<T>(query: Query, queryKey: Option<string>, separator: string,
                               tryParse: string -> Option<T>)
    returns (r: Result<seq<T>>)
    ensures queryKey.None? ==> r == Err(ArgumentNullException("queryKey"))
    ensures queryKey.Some? ==> r == Ok(Choose(Tokens(QueryValue(query, queryKey.value), separator), tryParse))
  {
    if queryKey.None? {
      return Err(ArgumentNullException("queryKey"));
    }
    var values := QueryValue(query, queryKey.value);
    if values == "" {
      return Ok([]);
    }
    var items := Split(values, separator);
    var result: seq<T> := [];
    for i := 0 to |items|
      invariant result == Choose(items[..i], tryParse)
    {
      assert items[..i + 1][..i] == items[..i];
      var parsed := tryParse(items[i]);
      if parsed.Some? {
        result := result + [parsed.value];
      }
    }
    assert items[..|items|] == items;
    return Ok(result);
  }

  /** `ParseIntegerList`: the pieces `int.TryParse` accepts, as Int32 values, in order. */
  method ParseIntegerList(query: Query, queryKey: Option<string>, separator: string)
    returns (r: Result<seq<Int32>>)
    ensures queryKey.None? ==> r == Err(ArgumentNullException("queryKey"))
    ensures queryKey.Some? ==> r == Ok(Choose(Tokens(QueryValue(query, queryKey.value), separator), TryParseInt32))
  {
    r := ParseConvertedList(query, queryKey, separator, TryParseInt32);
  }

  /**
   * `ParseDoubleList`: the pieces the floating-point parser accepts, in order.
   * The parser itself (`double.TryParse` with `NumberStyles.Any` and the
   * invariant culture) is the parameter `tryParseDouble`.
   */
  method ParseDoubleList<D>(query: Query, queryKey: Option<string>, separator: string,
                            tryParseDouble: string -> Option<D>)
    returns (r: Result<seq<D>>)
    ensures queryKey.None? ==> r == Err(ArgumentNullException("queryKey"))
    ensures queryKey.Some? ==> r == Ok(Choose(Tokens(QueryValue(query, queryKey.value), separator), tryParseDouble))
  {
    r := ParseConvertedList(query, queryKey, separator, tryParseDouble);
  }

  /** A missing key and an empty value both yield no pieces, so every list parser yields nothing. */
  lemma EmptyValueYieldsNothing<T>(query: Query, key: string, separator: string, tryParse: string -> Option<T>)
    requires key !in query || query[key] == ""
    ensures Tokens(QueryValue(query, key), separator) == []
    ensures Choose(Tokens(QueryValue(query, key), separator), tryParse) == []
  {
  }

  /**
   * The string list of a non-empty raw value joins back to it, has one piece
   * more than the value has separators, and no piece contains the separator.
   */
  lemma StringListReconstructs(raw: string, separator: string)
    requires raw != ""
    ensures Join(Tokens(raw, separator), separator) == raw
    ensures |Tokens(raw, separator)| == Occurrences(raw, separator) + 1
    ensures |separator| > 0 ==> forall k :: 0 <= k < |Tokens(raw, separator)| ==> !Contains(Tokens(raw, separator)[k], separator)
  {
    JoinSplit(raw, separator);
    SplitCount(raw, separator);
    if |separator| > 0 {
      SplitPiecesSeparatorFree(raw, separator);
    }
  }

  /**
   * The integer list has at most one value per piece, and each value is what
   * `int.TryParse` makes of some piece.
   */
  lemma IntegerListSound(raw: string, separator: string)
    ensures |Choose(Tokens(raw, separator), TryParseInt32)| <= |Tokens(raw, separator)|
    ensures forall v :: v in Choose(Tokens(raw, separator), TryParseInt32) ==>
              exists k :: 0 <= k < |Tokens(raw, separator)| && TryParseInt32(Tokens(raw, separator)[k]) == Some(v)
  {
    ChooseSound(Tokens(raw, separator), TryParseInt32);
  }

  /** When every piece parses, the integer list is the pieces' values, position by position. */
  lemma IntegerListComplete(raw: string, separator: string)
    requires forall k :: 0 <= k < |Tokens(raw, separator)| ==> TryParseInt32(Tokens(raw, separator)[k]).Some?
    ensures |Choose(Tokens(raw, separator), TryParseInt32)| == |Tokens(raw, separator)|
    ensures forall k :: 0 <= k < |Tokens(raw, separator)| ==>
              Choose(Tokens(raw, separator), TryParseInt32)[k] == TryParseInt32(Tokens(raw, separator)[k]).value
  {
    ChooseAll(Tokens(raw, separator), TryParseInt32);
  }

  /** The decimal renderings of Int32 values joined with ",". */
  function RenderList(xs: seq<Int32>): (raw: string) {
    Join(seq(|xs|, i requires 0 <= i < |xs| => Render(xs[i])), DefaultSeparator)
  }

  /** Round trip: rendering Int32 values and joining them with "," parses back to the same list. */
  lemma IntegerListRoundTrip(xs: seq<Int32>)
    ensures Choose(Tokens(RenderList(xs), DefaultSeparator), TryParseInt32) == xs
  {
    var parts := seq(|xs|, i requires 0 <= i < |xs| => Render(xs[i]));
    if |xs| > 0 {
      forall k | 0 <= k < |parts|
        ensures ',' !in parts[k]
      {
        assert forall i :: 0 <= i < |parts[k]| ==> IsDigit(parts[k][i]) || parts[k][i] == '-';
      }
      SplitJoin(parts, ',');
      JoinNonEmpty(parts, DefaultSeparator);
      var tokens := Tokens(RenderList(xs), DefaultSeparator);
      assert tokens == parts;
      forall k | 0 <= k < |tokens|
        ensures TryParseInt32(tokens[k]) == Some(xs[k])
      {
        TryParseRender(xs[k]);
      }
      ChooseAll(tokens, TryParseInt32);
    }
  }

  /** Joining non-empty first piece gives a non-empty string. */
  lemma JoinNonEmpty(parts: seq<string>, sep: string)
    requires |parts| > 0 && |parts[0]| > 0
    ensures Join(parts, sep) != ""
  {
  }

  /** The integration test of ParseStringList: "value1,value2" gives the two values. */
  lemma StringListExample()
    ensures Tokens("value1,value2", DefaultSeparator) == ["value1", "value2"]
  {
    var parts := ["value1", "value2"];
    assert Join(parts, DefaultSeparator) == "value1,value2";
    SplitJoin(parts, ',');
  }

  /** The integration test of ParseIntegerList: "1,2" gives [1, 2]. */
  lemma IntegerListExample()
    ensures Choose(Tokens("1,2", DefaultSeparator), TryParseInt32) == [1, 2]
  {
    var parts := ["1", "2"];
    assert Join(parts, DefaultSeparator) == "1,2";
    SplitJoin(parts, ',');
    assert Render(1) == "1" && Render(2) == "2";
    TryParseRender(1);
    TryParseRender(2);
    ChooseAll(parts, TryParseInt32);
  }

  /** The integration test of ParseIntegerList: "sdf,2" gives [2], the unparseable piece skipped. */
  lemma IntegerListSkipsExample()
    ensures Choose(Tokens("sdf,2", DefaultSeparator), TryParseInt32) == [2]
  {
    var parts := ["sdf", "2"];
    assert Join(parts, DefaultSeparator) == "sdf,2";
    SplitJoin(parts, ',');
    assert Trim("sdf") == "sdf";
    assert TryParseInt32("sdf") == None;
    assert Render(2) == "2";
    TryParseRender(2);
    assert parts[..1] == ["sdf"];
  }

  /** `int.TryParse(request.Query[name], out v)`: a missing parameter does not parse. */
  function QueryInt(query: Query, name: string): (r: Option<Int32>)
    ensures name !in query ==> r == None
  {
    TryParseInt32(QueryValue(query, name))
  }

  /**
   * The pagination the resolver returns: the parsed index or 1; the parsed size
   * or 20, lowered to `maxPageSize` when above it.
   */
  function PaginationFor(query: Query, indexParameterName: string, sizeParameterName: string,
                         maxPageSize: Int32): (p: PaginationData)
    ensures p.size <= maxPageSize
    ensures QueryInt(query, indexParameterName).None? ==> p.index == DefaultPageIndex
    ensures QueryInt(query, sizeParameterName).None? ==> p.size == if DefaultPageSize > maxPageSize then maxPageSize else DefaultPageSize
    ensures p.size == maxPageSize || p.size == DefaultPageSize || p.size == QueryInt(query, sizeParameterName).value
  {
    var index := if QueryInt(query, indexParameterName).Some? then QueryInt(query, indexParameterName).value
                 else DefaultPageIndex;
    var requested := if QueryInt(query, sizeParameterName).Some? then QueryInt(query, sizeParameterName).value
                     else DefaultPageSize;
    PaginationData(index, if requested > maxPageSize then maxPageSize else requested)
  }

  /** `GetPaginationData`, overwriting its two locals step by step as the source does. */
  method GetPaginationData(query: Query, indexParameterName: string, sizeParameterName: string,
                           maxPageSize: Int32)
    returns (p: PaginationData)
    ensures p == PaginationFor(query, indexParameterName, sizeParameterName, maxPageSize)
    ensures p.size <= maxPageSize
  {
    var pageIndex: Int32;
    var parsedIndex := TryParseInt32(QueryValue(query, indexParameterName));
    if parsedIndex.Some? {
      pageIndex := parsedIndex.value;
    } else {
      pageIndex := DefaultPageIndex;
    }
    var pageSize: Int32;
    var parsedSize := TryParseInt32(QueryValue(query, sizeParameterName));
    if parsedSize.Some? {
      pageSize := parsedSize.value;
    } else {
      pageSize := DefaultPageSize;
    }
    if pageSize > maxPageSize {
      pageSize := maxPageSize;
    }
    p := PaginationData(pageIndex, pageSize);
  }

  /**
   * The resolver's rule: the index is the parsed one or 1; the size never
   * exceeds the cap, equals the cap when the requested size reaches it, and is
   * otherwise the requested size unchanged, however small.
   */
  lemma PaginationRule(query: Query, indexParameterName: string, sizeParameterName: string, maxPageSize: Int32)
    ensures var p := PaginationFor(query, indexParameterName, sizeParameterName, maxPageSize);
      && (QueryInt(query, indexParameterName) == None ==> p.index == 1)
      && (forall v :: QueryInt(query, indexParameterName) == Some(v) ==> p.index == v)
      && p.size <= maxPageSize
      && (QueryInt(query, sizeParameterName) == None ==> p.size == if 20 <= maxPageSize then 20 else maxPageSize)
      && (forall s :: QueryInt(query, sizeParameterName) == Some(s) && s >= maxPageSize ==> p.size == maxPageSize)
      && (forall s :: QueryInt(query, sizeParameterName) == Some(s) && s <= maxPageSize ==> p.size == s)
  {
  }

  /** With no query parameters and the default arguments the page is (1, 20). */
  lemma PaginationDefaults()
    ensures PaginationFor(map[], DefaultIndexParameterName, DefaultSizeParameterName, DefaultMaxPageSize)
            == PaginationData(1, 20)
  {
  }

  /** A size parameter equal to the cap, written in decimal, is kept (the integration test, for every cap). */
  lemma PageSizeAtCapKept(sizeParameterName: string, maxPageSize: Int32)
    ensures PaginationFor(map[sizeParameterName := Render(maxPageSize)], DefaultIndexParameterName,
                          sizeParameterName, maxPageSize).size == maxPageSize
  {
    TryParseRender(maxPageSize);
  }

  /** An index parameter written in decimal is the page index (the integration test, for every index). */
  lemma PageIndexRead(indexParameterName: string, pageIndex: Int32)
    ensures PaginationFor(map[indexParameterName := Render(pageIndex)], indexParameterName,
                          DefaultSizeParameterName, DefaultMaxPageSize).index == pageIndex
  {
    TryParseRender(pageIndex);
  }

  /** A requested size above the cap is lowered to it: pageSize=200 with the default cap gives 20. */
  lemma PageSizeClamped()
    ensures PaginationFor(map["pageSize" := "200"], DefaultIndexParameterName, DefaultSizeParameterName,
                          DefaultMaxPageSize).size == 20
  {
    assert Render(200) == "200";
    TryParseRender(200);
  }

  /** No lower clamp: pageSize=0 reaches the record, which the tests' rule rejects. */
  lemma PageSizeZeroNotClamped()
    ensures PaginationFor(map["pageSize" := "0"], DefaultIndexParameterName, DefaultSizeParameterName,
                          DefaultMaxPageSize).size == 0
    ensures !IsValid(1, 0)
  {
    assert Render(0) == "0";
    TryParseRender(0);
  }
}
