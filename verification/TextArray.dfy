/**
 The two parsers of PostgreSQL TEXT[] literals: `Scan` reads runes, `ParseTextArray` reads bytes.
 What each keeps of its input, when they agree, and which lists survive being printed by
 PostgreSQL and parsed back.
 */
module TextArray {
  import opened Seqs
  import opened Utf8
  import opened Wrappers

  const QUOTE: byte := '"' as int
  const BACKSLASH: byte := '\\' as int
  const OPEN: byte := '{' as int
  const CLOSE: byte := '}' as int

  // ---- The byte parser ----

  predicate Braced(s: Bytes) {
    |s| >= 2 && s[0] == OPEN && s[|s| - 1] == CLOSE
  }

  function Inner(s: Bytes): Bytes
    requires Braced(s)
  {
    s[1..|s| - 1]
  }

  /** The parts still to come when `cur` has been collected and the quote flag is `q`. */
  function Segments(s: Bytes, cur: Bytes, q: bool): seq<Bytes> {
    if s == [] then (if cur != [] then [cur] else [])
    else if s[0] == QUOTE then Segments(s[1..], cur, !q)
    else if s[0] == COMMA && !q then [cur] + Segments(s[1..], [], q)
    else Segments(s[1..], cur + [s[0]], q)
  }

  function Parse(s: Bytes): seq<Bytes> {
    if Braced(s) then Segments(Inner(s), [], false) else [s]
  }

  method ParseTextArray(s: Bytes) returns (parts: seq<Bytes>)
    ensures parts == Parse(s)
    ensures |s| < 2 || s[0] != '{' as int || s[|s| - 1] != '}' as int ==> parts == [s]
  {
    if |s| < 2 || s[0] != OPEN || s[|s| - 1] != CLOSE {
      return [s];
    }
    var inner := s[1..|s| - 1];
    if inner == [] {
      return [];
    }
    parts := [];
    var current: Bytes := [];
    var inQuote := false;
    for i := 0 to |inner|
      invariant parts + Segments(inner[i..], current, inQuote) == Segments(inner, [], false)
    {
      var ch := inner[i];
      assert inner[i..][1..] == inner[i + 1..];
      if ch == QUOTE {
        inQuote := !inQuote;
      } else if ch == COMMA && !inQuote {
        MoveOver(parts, current, Segments(inner[i + 1..], [], inQuote));
        parts := parts + [current];
        current := [];
      } else {
        current := current + [ch];
      }
    }
    assert inner[|inner|..] == [];
    if |current| > 0 {
      parts := parts + [current];
    }
  }

  // ---- The rune parser ----

  function RuneSegments(s: Bytes, cur: Bytes, q: bool): seq<Bytes>
    decreases |s|
  {
    if s == [] then (if cur != [] then [cur] else [])
    else
      var (ch, w) := DecodeRune(s);
      if ch == COMMA && !q then [cur] + RuneSegments(s[w..], [], q)
      else if ch == QUOTE then RuneSegments(s[w..], cur, !q)
      else RuneSegments(s[w..], cur + EncodeRune(ch), q)
  }

  function RuneParse(s: Bytes): seq<Bytes> {
    if Braced(s) then RuneSegments(Inner(s), [], false) else [s]
  }

  /** The column value handed to `Scan`: SQL NULL, text, or a value of another Go type. */
  datatype Column = Null | Text(bytes: Bytes) | OtherType

  /** What one turn of the loop does to the parts still to come. */
  lemma RuneStep(s: Bytes, i: nat, cur: Bytes, q: bool, ch: nat, w: nat)
    requires i < |s| && DecodeRune(s[i..]) == (ch, w)
    ensures RuneSegments(s[i..], cur, q) ==
            if ch == COMMA && !q then [cur] + RuneSegments(s[i + w..], [], q)
            else if ch == QUOTE then RuneSegments(s[i + w..], cur, !q)
            else RuneSegments(s[i + w..], cur + EncodeRune(ch), q)
  {
    assert s[i..][w..] == s[i + w..];
  }

  method NextRune(s: Bytes, i: nat) returns (ch: nat, w: nat, encoded: Bytes)
    requires i < |s|
    ensures 1 <= w <= |s| - i
    ensures forall cur, q ::
              RuneSegments(s[i..], cur, q) ==
              if ch == COMMA && !q then [cur] + RuneSegments(s[i + w..], [], q)
              else if ch == QUOTE then RuneSegments(s[i + w..], cur, !q)
              else RuneSegments(s[i + w..], cur + encoded, q)
  {
    var r := DecodeRune(s[i..]);
    ch, w := r.0, r.1;
    encoded := EncodeRune(ch);
    forall cur, q {
      RuneStep(s, i, cur, q, ch, w);
    }
  }

  method Scan(value: Column) returns (r: Result<seq<Bytes>, Column>)
    ensures r == match value
            case Null => Ok([])
            case OtherType => Err(OtherType)
            case Text(s) => Ok(RuneParse(s))
    ensures value.Text? ==>
              var s := value.bytes;
              |s| < 2 || s[0] != '{' as int || s[|s| - 1] != '}' as int ==> r == Ok([s])
  {
    if value.Null? {
      return Ok([]);
    }
    if !value.Text? {
      return Err(value);
    }
    var s := value.bytes;
    if |s| < 2 || s[0] != OPEN || s[|s| - 1] != CLOSE {
      return Ok([s]);
    }
    var inner := s[1..|s| - 1];
    if inner == [] {
      return Ok([]);
    }
    var parts := ScanInner(inner);
    return Ok(parts);
  }

  method ScanInner(inner: Bytes) returns (parts: seq<Bytes>)
    ensures parts == RuneSegments(inner, [], false)
  {
    parts := [];
    var current: Bytes := [];
    var escaped := false;
    var i := 0;
    assert inner[0..] == inner;
    while i < |inner|
      invariant 0 <= i <= |inner|
      invariant parts + RuneSegments(inner[i..], current, escaped) == RuneSegments(inner, [], false)
    {
      var ch, w, encoded := NextRune(inner, i);
      if ch == COMMA && !escaped {
        MoveOver(parts, current, RuneSegments(inner[i + w..], [], escaped));
        parts := parts + [current];
        current := [];
      } else if ch == QUOTE {
        escaped := !escaped;
      } else {
        current := current + encoded;
      }
      i := i + w;
    }
    assert inner[i..] == [];
    if current != [] {
      parts := parts + [current];
    }
  }

  // ---- Conservation ----

  function Flatten(parts: seq<Bytes>): Bytes {
    if parts == [] then [] else parts[0] + Flatten(parts[1..])
  }

  /** `s` without its quotes and without the commas that stand outside quotes. */
  function Kept(s: Bytes, q: bool): Bytes {
    if s == [] then []
    else if s[0] == QUOTE then Kept(s[1..], !q)
    else if s[0] == COMMA && !q then Kept(s[1..], q)
    else [s[0]] + Kept(s[1..], q)
  }

  function UnquotedCommas(s: Bytes, q: bool): nat {
    if s == [] then 0
    else if s[0] == QUOTE then UnquotedCommas(s[1..], !q)
    else (if s[0] == COMMA && !q then 1 else 0) + UnquotedCommas(s[1..], q)
  }

  /** The text after the last unquoted comma holds nothing but quotes. */
  predicate LastSegmentEmpty(s: Bytes, q: bool) {
    if s == [] then true
    else if s[0] == QUOTE then LastSegmentEmpty(s[1..], !q)
    else if s[0] == COMMA && !q then LastSegmentEmpty(s[1..], q)
    else UnquotedCommas(s[1..], q) > 0 && LastSegmentEmpty(s[1..], q)
  }

  /** Nothing but quotes and unquoted commas is lost, and every unquoted comma ends a part. */
  lemma {:induction false} SegmentsConserve(s: Bytes, cur: Bytes, q: bool)
    ensures Flatten(Segments(s, cur, q)) == cur + Kept(s, q)
    ensures |Segments(s, cur, q)| == UnquotedCommas(s, q) +
            (if LastSegmentEmpty(s, q) && (UnquotedCommas(s, q) > 0 || cur == []) then 0 else 1)
  {
    if s == [] {
      if cur != [] {
        assert Flatten([cur]) == cur + Flatten([cur][1..]);
      }
    } else if s[0] == QUOTE {
      SegmentsConserve(s[1..], cur, !q);
    } else if s[0] == COMMA && !q {
      SegmentsConserve(s[1..], [], q);
      assert ([cur] + Segments(s[1..], [], q))[1..] == Segments(s[1..], [], q);
    } else {
      SegmentsConserve(s[1..], cur + [s[0]], q);
      assert cur + [s[0]] + Kept(s[1..], q) == cur + ([s[0]] + Kept(s[1..], q));
    }
  }

  lemma ParseConserves(s: Bytes)
    requires Braced(s)
    ensures Flatten(Parse(s)) == Kept(Inner(s), false)
    ensures |Parse(s)| == UnquotedCommas(Inner(s), false) + (if LastSegmentEmpty(Inner(s), false) then 0 else 1)
  {
    SegmentsConserve(Inner(s), [], false);
  }

  // ---- Agreement ----

  function Total(parts: seq<Bytes>): nat {
    if parts == [] then 0 else |parts[0]| + Total(parts[1..])
  }

  lemma TotalCons(cur: Bytes, rest: seq<Bytes>)
    ensures Total([cur] + rest) == |cur| + Total(rest)
  {
    assert ([cur] + rest)[1..] == rest;
  }

  /** Bytes that are neither quote nor comma are appended one after the other. */
  lemma {:induction false} SegmentsAppend(s: Bytes, n: nat, cur: Bytes, q: bool)
    requires n <= |s|
    requires forall k :: 0 <= k < n ==> s[k] != QUOTE && s[k] != COMMA
    ensures Segments(s, cur, q) == Segments(s[n..], cur + s[..n], q)
  {
    if n == 0 {
      assert s[0..] == s && cur + s[..0] == cur;
    } else {
      SegmentsAppend(s[1..], n - 1, cur + [s[0]], q);
      assert s[1..][n - 1..] == s[n..];
      assert cur + [s[0]] + s[1..][..n - 1] == cur + s[..n];
    }
  }

  lemma {:induction false} SegmentsAgree(s: Bytes, cur: Bytes, q: bool)
    requires Valid(s)
    ensures RuneSegments(s, cur, q) == Segments(s, cur, q)
    decreases |s|
  {
    if s == [] {
    } else if s[0] < 0x80 {
      SegmentsAgree(s[1..], cur, !q);
      SegmentsAgree(s[1..], [], q);
      SegmentsAgree(s[1..], cur + [s[0]], q);
    } else {
      var w := DecodeRune(s).1;
      EncodeDecode(s);
      MultiByteIsNotAscii(s);
      SegmentsAppend(s, w, cur, q);
      SegmentsAgree(s[w..], cur + s[..w], q);
    }
  }

  /** Each malformed byte makes the rune parser's output two bytes longer. */
  lemma {:induction false} SegmentsLengths(s: Bytes, a: Bytes, b: Bytes, q: bool)
    ensures Total(RuneSegments(s, a, q)) + |b| >= Total(Segments(s, b, q)) + |a|
    ensures !Valid(s) ==> Total(RuneSegments(s, a, q)) + |b| > Total(Segments(s, b, q)) + |a|
    decreases |s|
  {
    if s == [] {
      if a != [] { TotalCons(a, []); }
      if b != [] { TotalCons(b, []); }
      assert forall x: Bytes :: [x] + [] == [x];
    } else {
      var (ch, w) := DecodeRune(s);
      if s[0] < 0x80 {
        if s[0] == COMMA && !q {
          SegmentsLengths(s[1..], [], [], q);
          TotalCons(a, RuneSegments(s[1..], [], q));
          TotalCons(b, Segments(s[1..], [], q));
        } else if s[0] == QUOTE {
          SegmentsLengths(s[1..], a, b, !q);
        } else {
          SegmentsLengths(s[1..], a + [s[0]], b + [s[0]], q);
        }
      } else {
        MultiByteIsNotAscii(s);
        SegmentsAppend(s, w, b, q);
        if Malformed(s) {
          MalformedGrows(s);
          SegmentsLengths(s[1..], a + EncodeRune(RUNE_ERROR), b + s[..1], q);
        } else {
          EncodeDecode(s);
          SegmentsLengths(s[w..], a + EncodeRune(ch), b + s[..w], q);
        }
      }
    }
  }

  /** The two parsers return the same list exactly when the braced text is valid UTF-8. */
  lemma ParsersAgreeIff(s: Bytes)
    ensures RuneParse(s) == Parse(s) <==> (Braced(s) ==> Valid(Inner(s)))
  {
    if Braced(s) {
      if Valid(Inner(s)) {
        SegmentsAgree(Inner(s), [], false);
      } else {
        SegmentsLengths(Inner(s), [], [], false);
      }
    }
  }

  // ---- Round trip through PostgreSQL's array output ----

  predicate Space(b: byte) {
    b == 32 || 9 <= b <= 13
  }

  function Lower(b: byte): byte {
    if 65 <= b <= 90 then b + 32 else b
  }

  /** Section 8.15.6 of the PostgreSQL documentation: which elements are printed in quotes. */
  predicate NeedsQuotes(e: Bytes) {
    || e == []
    || (|e| == 4 && Lower(e[0]) == 110 && Lower(e[1]) == 117 && Lower(e[2]) == 108 && Lower(e[3]) == 108)
    || exists b :: b in e && (b == OPEN || b == CLOSE || b == COMMA || b == QUOTE || b == BACKSLASH || Space(b))
  }

  /** A backslash before every quote and every backslash. */
  function Escape(e: Bytes): Bytes {
    if e == [] then []
    else (if e[0] == QUOTE || e[0] == BACKSLASH then [BACKSLASH, e[0]] else [e[0]]) + Escape(e[1..])
  }

  function PrintElement(e: Bytes): Bytes {
    if NeedsQuotes(e) then [QUOTE] + Escape(e) + [QUOTE] else e
  }

  function PrintList(l: seq<Bytes>): Bytes {
    if l == [] then []
    else if |l| == 1 then PrintElement(l[0])
    else PrintElement(l[0]) + ([COMMA] + PrintList(l[1..]))
  }

  function Print(l: seq<Bytes>): (s: Bytes)
    ensures Braced(s) && Inner(s) == PrintList(l)
  {
    [OPEN] + PrintList(l) + [CLOSE]
  }

  predicate Plain(e: Bytes) {
    QUOTE !in e && BACKSLASH !in e
  }

  lemma {:induction false} PlainEscape(e: Bytes)
    requires Plain(e)
    ensures Escape(e) == e
  {
    if e != [] {
      PlainEscape(e[1..]);
      assert e == [e[0]] + e[1..];
    }
  }

  /** Inside quotes everything but a quote is kept. */
  lemma {:induction false} SegmentsInQuotes(e: Bytes, rest: Bytes, cur: Bytes)
    requires QUOTE !in e
    ensures Segments(e + rest, cur, true) == Segments(rest, cur + e, true)
  {
    if e == [] {
      assert e + rest == rest && cur + e == cur;
    } else {
      assert (e + rest)[1..] == e[1..] + rest;
      SegmentsInQuotes(e[1..], rest, cur + [e[0]]);
      assert cur + [e[0]] + e[1..] == cur + e;
    }
  }

  lemma SegmentsOfQuoted(e: Bytes, rest: Bytes)
    requires QUOTE !in e
    ensures Segments([QUOTE] + e + [QUOTE] + rest, [], false) == Segments(rest, e, false)
  {
    var tail := [QUOTE] + rest;
    var text := [QUOTE] + e + [QUOTE] + rest;
    assert text[1..] == e + tail;
    assert Segments(text, [], false) == Segments(e + tail, [], true);
    SegmentsInQuotes(e, tail, []);
    assert [] + e == e;
    assert tail[1..] == rest;
  }

  lemma SegmentsOfBare(e: Bytes, rest: Bytes)
    requires QUOTE !in e && COMMA !in e
    ensures Segments(e + rest, [], false) == Segments(rest, e, false)
  {
    assert forall k :: 0 <= k < |e| ==> e[k] in e;
    SegmentsAppend(e + rest, |e|, [], false);
    assert (e + rest)[|e|..] == rest && (e + rest)[..|e|] == e && [] + e == e;
  }

  lemma SegmentsOfElement(e: Bytes, rest: Bytes)
    requires Plain(e)
    ensures Segments(PrintElement(e) + rest, [], false) == Segments(rest, e, false)
  {
    if NeedsQuotes(e) {
      PlainEscape(e);
      SegmentsOfQuoted(e, rest);
    } else {
      SegmentsOfBare(e, rest);
    }
  }

  function DropEmptyLast(l: seq<Bytes>): seq<Bytes> {
    if l != [] && l[|l| - 1] == [] then l[..|l| - 1] else l
  }

  lemma {:induction false} PlainListParsed(l: seq<Bytes>)
    requires forall e :: e in l ==> Plain(e)
    ensures Segments(PrintList(l), [], false) == DropEmptyLast(l)
  {
    if l == [] {
    } else if |l| == 1 {
      SegmentsOfElement(l[0], []);
      assert PrintElement(l[0]) + [] == PrintElement(l[0]);
      assert l == [l[0]];
    } else {
      var tail := [COMMA] + PrintList(l[1..]);
      SegmentsOfElement(l[0], tail);
      assert tail[1..] == PrintList(l[1..]);
      PlainListParsed(l[1..]);
      assert [l[0]] + DropEmptyLast(l[1..]) == DropEmptyLast(l);
    }
  }

  function Count(b: byte, s: Bytes): nat {
    if s == [] then 0 else (if s[0] == b then 1 else 0) + Count(b, s[1..])
  }

  lemma {:induction false} CountConcat(b: byte, s: Bytes, t: Bytes)
    ensures Count(b, s + t) == Count(b, s) + Count(b, t)
  {
    if s == [] {
      assert s + t == t;
    } else {
      assert (s + t)[1..] == s[1..] + t;
      CountConcat(b, s[1..], t);
    }
  }

  lemma {:induction false} CountZero(b: byte, s: Bytes)
    ensures Count(b, s) == 0 <==> b !in s
  {
    if s != [] {
      CountZero(b, s[1..]);
      assert s == [s[0]] + s[1..];
    }
  }

  /** No parser step drops a backslash. */
  lemma {:induction false} KeptBackslashes(s: Bytes, q: bool)
    ensures Count(BACKSLASH, Kept(s, q)) == Count(BACKSLASH, s)
  {
    if s == [] {
    } else {
      KeptBackslashes(s[1..], !q);
      KeptBackslashes(s[1..], q);
      var rest := Kept(s[1..], q);
      assert ([s[0]] + rest)[1..] == rest;
    }
  }

  lemma {:induction false} EscapeBackslashes(e: Bytes)
    ensures Count(BACKSLASH, Escape(e)) == 2 * Count(BACKSLASH, e) + Count(QUOTE, e)
  {
    if e != [] {
      EscapeBackslashes(e[1..]);
      var head := if e[0] == QUOTE || e[0] == BACKSLASH then [BACKSLASH, e[0]] else [e[0]];
      CountConcat(BACKSLASH, head, Escape(e[1..]));
      assert head[1..] == if e[0] == QUOTE || e[0] == BACKSLASH then [e[0]] else [];
      assert |head| == 2 ==> head[1..][1..] == [];
    }
  }

  lemma ElementBackslashes(e: Bytes)
    ensures Count(BACKSLASH, PrintElement(e)) == 2 * Count(BACKSLASH, e) + Count(QUOTE, e)
  {
    EscapeBackslashes(e);
    CountZero(BACKSLASH, e);
    CountZero(QUOTE, e);
    CountConcat(BACKSLASH, [QUOTE] + Escape(e), [QUOTE]);
    CountConcat(BACKSLASH, [QUOTE], Escape(e));
    assert [QUOTE][1..] == [];
  }

  lemma {:induction false} ListBackslashes(l: seq<Bytes>)
    ensures Count(BACKSLASH, PrintList(l)) == 2 * Count(BACKSLASH, Flatten(l)) + Count(QUOTE, Flatten(l))
  {
    if l != [] {
      ElementBackslashes(l[0]);
      ListBackslashes(l[1..]);
      CountConcat(BACKSLASH, l[0], Flatten(l[1..]));
      CountConcat(QUOTE, l[0], Flatten(l[1..]));
      var tail := [COMMA] + PrintList(l[1..]);
      CountConcat(BACKSLASH, PrintElement(l[0]), tail);
      assert tail[1..] == PrintList(l[1..]);
      assert |l| == 1 ==> l[1..] == [];
    }
  }

  lemma {:induction false} PlainFlatten(l: seq<Bytes>)
    ensures Plain(Flatten(l)) <==> forall e :: e in l ==> Plain(e)
  {
    if l != [] {
      PlainFlatten(l[1..]);
      var tail := Flatten(l[1..]);
      assert Plain(l[0] + tail) <==> Plain(l[0]) && Plain(tail);
      assert forall e :: e in l <==> e == l[0] || e in l[1..];
    }
  }

  /**
   A list printed by PostgreSQL is parsed back to itself exactly when no element holds a quote or
   a backslash and the last element, if there is one, is not empty.
   */
  lemma RoundTripIff(l: seq<Bytes>)
    ensures Parse(Print(l)) == l <==>
            (forall e :: e in l ==> Plain(e)) && (l != [] ==> l[|l| - 1] != [])
  {
    if forall e :: e in l ==> Plain(e) {
      PlainListParsed(l);
    } else if Parse(Print(l)) == l {
      ParseConserves(Print(l));
      KeptBackslashes(PrintList(l), false);
      ListBackslashes(l);
      PlainFlatten(l);
      CountZero(BACKSLASH, Flatten(l));
      CountZero(QUOTE, Flatten(l));
    }
  }

  lemma {:induction false} EscapeConcat(a: Bytes, b: Bytes)
    ensures Escape(a + b) == Escape(a) + Escape(b)
  {
    if a == [] {
      assert a + b == b;
    } else {
      assert (a + b)[1..] == a[1..] + b;
      EscapeConcat(a[1..], b);
    }
  }

  lemma {:induction false} EscapeValid(e: Bytes)
    requires Valid(e)
    ensures Valid(Escape(e))
    decreases |e|
  {
    if e == [] {
    } else {
      var w := DecodeRune(e).1;
      EscapeValid(e[w..]);
      if e[0] < 0x80 {
        var head := if e[0] == QUOTE || e[0] == BACKSLASH then [BACKSLASH, e[0]] else [e[0]];
        assert head[1..] == [] || head[1..] == [e[0]];
        assert [e[0]][1..] == [];
        ValidAppend(head, Escape(e[1..]));
      } else {
        MultiByteIsNotAscii(e);
        PlainEscape(e[..w]);
        EscapeConcat(e[..w], e[w..]);
        assert e[..w] + e[w..] == e;
        EncodeDecode(e);
        RuneIsValid(e);
        ValidAppend(e[..w], Escape(e[w..]));
      }
    }
  }

  lemma RuneIsValid(e: Bytes)
    requires e != [] && !Malformed(e)
    ensures Valid(e[..DecodeRune(e).1])
  {
    var w := DecodeRune(e).1;
    assert DecodeRune(e[..w]) == DecodeRune(e);
    assert e[..w][w..] == [];
  }

  lemma {:induction false} PrintListValid(l: seq<Bytes>)
    requires forall e :: e in l ==> Valid(e)
    ensures Valid(PrintList(l))
  {
    if l != [] {
      var e := l[0];
      EscapeValid(e);
      assert [QUOTE][1..] == [] && [COMMA][1..] == [];
      ValidAppend(Escape(e), [QUOTE]);
      ValidAppend([QUOTE], Escape(e) + [QUOTE]);
      assert [QUOTE] + Escape(e) + [QUOTE] == [QUOTE] + (Escape(e) + [QUOTE]);
      PrintListValid(l[1..]);
      ValidAppend([COMMA], PrintList(l[1..]));
      ValidAppend(PrintElement(e), [COMMA] + PrintList(l[1..]));
    }
  }

  /** The same for the rune parser, on the text a UTF-8 database holds. */
  lemma ScanRoundTripIff(l: seq<Bytes>)
    requires forall e :: e in l ==> Valid(e)
    ensures RuneParse(Print(l)) == l <==>
            (forall e :: e in l ==> Plain(e)) && (l != [] ==> l[|l| - 1] != [])
  {
    PrintListValid(l);
    ParsersAgreeIff(Print(l));
    RoundTripIff(l);
  }
}
