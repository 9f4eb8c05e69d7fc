/** Media URLs are read back as one comma-joined string and split again. */
module MediaUrls {
  import opened Utf8

  /** PostgreSQL's array_to_string(urls, ','). */
  function Join(urls: seq<Bytes>): Bytes {
    if urls == [] then []
    else if |urls| == 1 then urls[0]
    else urls[0] + ([COMMA] + Join(urls[1..]))
  }

  /** strings.Split(s, ","): never empty. */
  function Split(s: Bytes): (parts: seq<Bytes>)
    ensures |parts| >= 1
  {
    if s == [] then [[]]
    else if s[0] == COMMA then [[]] + Split(s[1..])
    else
      var rest := Split(s[1..]);
      [[s[0]] + rest[0]] + rest[1..]
  }

  /** What a read of the stored list returns: an empty string leaves the list empty. */
  function ReadBack(urls: seq<Bytes>): seq<Bytes> {
    var joined := Join(urls);
    if joined != [] then Split(joined) else []
  }

  lemma {:induction false} SplitHead(url: Bytes, rest: Bytes)
    requires COMMA !in url
    ensures Split(url + ([COMMA] + rest)) == [url] + Split(rest)
    ensures Split(url) == [url]
  {
    if url == [] {
      assert url + ([COMMA] + rest) == [COMMA] + rest;
    } else {
      assert (url + ([COMMA] + rest))[1..] == url[1..] + ([COMMA] + rest);
      SplitHead(url[1..], rest);
      assert [url[0]] + url[1..] == url;
      assert ([url[1..]] + Split(rest))[1..] == Split(rest);
    }
  }

  lemma {:induction false} SplitJoin(urls: seq<Bytes>)
    requires urls != [] && forall u :: u in urls ==> COMMA !in u
    ensures Split(Join(urls)) == urls
  {
    assert urls[0] in urls;
    if |urls| == 1 {
      SplitHead(urls[0], []);
      assert urls == [urls[0]];
    } else {
      SplitHead(urls[0], Join(urls[1..]));
      SplitJoin(urls[1..]);
      assert urls == [urls[0]] + urls[1..];
    }
  }

  lemma {:induction false} SplitHasNoComma(s: Bytes)
    ensures forall u :: u in Split(s) ==> COMMA !in u
  {
    if s != [] {
      SplitHasNoComma(s[1..]);
      var rest := Split(s[1..]);
      assert rest[0] in rest;
      assert forall u :: u in rest[1..] ==> u in rest;
    }
  }

  /** The list survives exactly when no URL holds a comma and it is not one empty URL. */
  lemma ReadBackIff(urls: seq<Bytes>)
    ensures ReadBack(urls) == urls <==> urls != [[]] && forall u :: u in urls ==> COMMA !in u
  {
    if Join(urls) != [] {
      SplitHasNoComma(Join(urls));
      if forall u :: u in urls ==> COMMA !in u {
        SplitJoin(urls);
      }
    }
  }
}
