/** The endpoint notation itself: its abstract syntax, how an endpoint list is written down, which
    connection strings it stands for, and that the parser finds exactly these. */
module Endpoints {
  import opened Text
  import opened Decimal
  import opened StringParser

  /** Plain text, prefix[lo-hi], or prefix[n1,n2,...] (also with a single number). */
  datatype Endpoint =
    | Plain(text: string)
    | Range(prefix: string, lo: nat, hi: nat)
    | Members(prefix: string, ids: seq<nat>)

  predicate IsPrefix(s: string) {
    s != [] && Lacks(s, ',') && Lacks(s, '[') && Lacks(s, ']')
  }

  predicate Valid(e: Endpoint) {
    match e
    case Plain(text) => Lacks(text, ',') && Lacks(text, '[')
    case Range(prefix, lo, hi) => IsPrefix(prefix) && lo <= hi <= INT_MAX
    case Members(prefix, ids) => IsPrefix(prefix) && ids != [] && forall k | 0 <= k < |ids| :: ids[k] <= INT_MAX
  }

  predicate AllValid(es: seq<Endpoint>) {
    forall k | 0 <= k < |es| :: Valid(es[k])
  }

  // ----- notation

  function PrintIds(ids: seq<nat>): string
    requires ids != []
  {
    if |ids| == 1 then PrintNat(ids[0]) else PrintNat(ids[0]) + ("," + PrintIds(ids[1..]))
  }

  function Bracketed(prefix: string, inner: string): string {
    prefix + ("[" + (inner + "]"))
  }

  function RangeText(lo: nat, hi: nat): string {
    PrintNat(lo) + ("-" + PrintNat(hi))
  }

  function Print(e: Endpoint): string
    requires Valid(e)
  {
    match e
    case Plain(text) => text
    case Range(prefix, lo, hi) => Bracketed(prefix, RangeText(lo, hi))
    case Members(prefix, ids) => Bracketed(prefix, PrintIds(ids))
  }

  function PrintAll(es: seq<Endpoint>): string
    requires es != [] && AllValid(es)
  {
    if |es| == 1 then Print(es[0]) else Print(es[0]) + ("," + PrintAll(es[1..]))
  }

  // ----- meaning

  function Interval(lo: nat, hi: nat): (ids: seq<nat>)
    requires lo <= hi
    decreases hi - lo
  {
    if lo == hi then [lo] else [lo] + Interval(lo + 1, hi)
  }

  function IdStrings(prefix: string, ids: seq<nat>): (r: seq<string>)
    ensures |r| == |ids|
  {
    if ids == [] then [] else [prefix + PrintNat(ids[0])] + IdStrings(prefix, ids[1..])
  }

  function Strings(e: Endpoint): seq<string>
    requires Valid(e)
  {
    match e
    case Plain(text) => [text]
    case Range(prefix, lo, hi) => IdStrings(prefix, Interval(lo, hi))
    case Members(prefix, ids) => IdStrings(prefix, ids)
  }

  function AllStrings(es: seq<Endpoint>): seq<string>
    requires AllValid(es)
  {
    if es == [] then [] else Strings(es[0]) + AllStrings(es[1..])
  }

  /** A loop over the numbers of a range counts one past its end. */
  predicate LoopEnds(e: Endpoint) {
    e.Range? ==> e.hi < INT_MAX
  }

  predicate AllLoopsEnd(es: seq<Endpoint>) {
    forall k | 0 <= k < |es| :: LoopEnds(es[k])
  }

  // ----- characters of the notation

  predicate EndsEntry(rest: string) {
    rest == [] || rest[0] == ','
  }

  lemma DigitsLack(n: nat)
    ensures Lacks(PrintNat(n), ',') && Lacks(PrintNat(n), '[') && Lacks(PrintNat(n), ']') && Lacks(PrintNat(n), '-')
  {
  }

  lemma {:induction false} IdsLack(ids: seq<nat>)
    requires ids != []
    ensures Lacks(PrintIds(ids), '[') && Lacks(PrintIds(ids), ']') && Lacks(PrintIds(ids), '-')
    ensures Lacks(PrintIds(ids), ',') <==> |ids| == 1
  {
    DigitsLack(ids[0]);
    if |ids| <= 1 {
    } else {
      IdsLack(ids[1..]);
      assert PrintIds(ids)[|PrintNat(ids[0])|] == ',';
    }
  }

  lemma RangeTextLacks(lo: nat, hi: nat)
    ensures var q := RangeText(lo, hi); Lacks(q, ',') && Lacks(q, '[') && Lacks(q, ']') && !Lacks(q, '-')
  {
    DigitsLack(lo);
    DigitsLack(hi);
    assert RangeText(lo, hi)[|PrintNat(lo)|] == '-';
  }

  // ----- where a candidate ends

  function NextComma(s: string, from: nat): nat
    requires from <= |s|
  {
    from + IndexOf(s[from..], ',')
  }

  lemma NextCommaLater(s: string, from: nat, later: nat)
    requires from <= |s| && from <= later <= NextComma(s, from)
    ensures NextComma(s, later) == NextComma(s, from)
  {
    var t, k := s[from..], later - from;
    assert s[later..] == t[k..];
    IndexOfIs(t[k..], ',', IndexOf(t, ',') - k);
  }

  lemma NextCommaIsComma(s: string, from: nat)
    requires from <= |s|
    ensures NextComma(s, from) < |s| ==> s[NextComma(s, from)] == ','
  {
  }

  lemma {:induction false} PastBracketFinds(s: string, p: nat, close: nat)
    requires p <= close < |s| && s[close] != ','
    ensures PastBracket(s, NextComma(s, p), close) == NextComma(s, close + 1)
    decreases close - p
  {
    hide IndexOf;
    var stop := NextComma(s, p);
    NextCommaIsComma(s, p);
    if stop < close {
      PastBracketFinds(s, stop + 1, close);
    } else {
      assert stop != close;
      NextCommaLater(s, p, close + 1);
    }
  }

  lemma BracketedPlaces(prefix: string, inner: string, rest: string)
    requires IsPrefix(prefix) && Lacks(inner, ']')
    ensures var s, close := Bracketed(prefix, inner) + rest, |prefix| + 1 + |inner|;
            IndexOf(s, '[') == |prefix| < IndexOf(s, ',') && IndexOf(s, ']') == close < |s| && s[close] == ']'
  {
    var s, close := Bracketed(prefix, inner) + rest, |prefix| + 1 + |inner|;
    IndexOfIs(s, '[', |prefix|);
    IndexOfIs(s, ']', close);
    assert s[|prefix|] == '[';
  }

  lemma BracketedLength(prefix: string, inner: string, rest: string)
    requires IsPrefix(prefix) && Lacks(inner, ']') && EndsEntry(rest)
    ensures CandidateLength(Bracketed(prefix, inner) + rest) == |Bracketed(prefix, inner)|
  {
    hide IndexOf, PastBracket;
    var s, close := Bracketed(prefix, inner) + rest, |prefix| + 1 + |inner|;
    BracketedPlaces(prefix, inner, rest);
    PastBracketFinds(s, 0, close);
    assert s[0..] == s;
    assert s[close + 1..] == rest;
    IndexOfIs(rest, ',', 0);
  }

  lemma PlainLength(text: string, rest: string)
    requires Valid(Plain(text)) && EndsEntry(rest)
    ensures IndexOf(text + rest, ',') == |text|
    ensures CandidateLength(text + rest) == |text|
  {
    IndexOfIs(text + rest, ',', |text|);
    IndexOfSkips(text, rest, '[');
  }

  lemma CandidateEnds(e: Endpoint, rest: string)
    requires Valid(e) && EndsEntry(rest)
    ensures CandidateLength(Print(e) + rest) == |Print(e)|
  {
    hide CandidateLength, Bracketed, IsPrefix;
    match e
    case Plain(text) => PlainLength(text, rest);
    case Range(prefix, lo, hi) =>
      RangeTextLacks(lo, hi);
      BracketedLength(prefix, RangeText(lo, hi), rest);
    case Members(prefix, ids) =>
      IdsLack(ids);
      BracketedLength(prefix, PrintIds(ids), rest);
  }

  // ----- what a candidate expands to

  lemma {:induction false} RangeExpands(prefix: string, lo: nat, hi: nat)
    requires lo <= hi
    ensures RangeStrings(prefix, lo, hi) == IdStrings(prefix, Interval(lo, hi))
    decreases hi - lo
  {
    if lo < hi {
      RangeExpands(prefix, lo + 1, hi);
      assert Interval(lo, hi)[1..] == Interval(lo + 1, hi);
    } else {
      assert RangeStrings(prefix, lo + 1, hi) == [];
      assert Interval(lo, hi)[1..] == [];
    }
  }

  lemma RangeScans(lo: nat, hi: nat, rest: string)
    requires lo <= INT_MAX && hi <= INT_MAX && (rest != [] ==> !IsDigit(rest[0]))
    ensures ScanRange("[" + (RangeText(lo, hi) + rest)) == Some((lo, hi))
  {
    hide PrintNat, ScanInt;
    var s := "[" + (RangeText(lo, hi) + rest);
    assert s[1..] == PrintNat(lo) + ("-" + (PrintNat(hi) + rest));
    ScanPrinted(lo, "-" + (PrintNat(hi) + rest));
    assert ("-" + (PrintNat(hi) + rest))[1..] == PrintNat(hi) + rest;
    ScanPrinted(hi, rest);
  }

  lemma NextTokenIs(tok: string, rest: string)
    requires tok != [] && Lacks(tok, ',') && EndsEntry(rest)
    ensures NextToken(tok + rest) == Some((tok, if rest == [] then [] else rest[1..]))
  {
    var s := tok + rest;
    assert s[0] == tok[0];
    assert s[0..] == s;
    IndexOfIs(s, ',', |tok|);
    assert s[..|tok|] == tok;
    if rest != [] {
      assert s[|tok| + 1..] == rest[1..];
    }
  }

  /** strtok and atoi read one number per token, the closing bracket after the last one. */
  lemma {:induction false} TokensScan(prefix: string, ids: seq<nat>)
    requires ids != [] && forall k | 0 <= k < |ids| :: ids[k] <= INT_MAX
    ensures TokenStrings(prefix, PrintIds(ids) + "]") == IdStrings(prefix, ids)
  {
    hide ScanInt;
    var d := PrintNat(ids[0]);
    DigitsLack(ids[0]);
    if |ids| == 1 {
      NextTokenIs(d + "]", []);
      ScanPrinted(ids[0], "]");
      assert (d + "]") + [] == d + "]";
      assert IdStrings(prefix, ids[1..]) == [];
    } else {
      var more := PrintIds(ids[1..]) + "]";
      assert PrintIds(ids) + "]" == d + ("," + more);
      NextTokenIs(d, "," + more);
      ScanPrinted(ids[0], []);
      assert d + [] == d;
      assert ("," + more)[1..] == more;
      TokensScan(prefix, ids[1..]);
    }
  }

  lemma BracketedSplits(prefix: string, inner: string)
    requires IsPrefix(prefix)
    ensures var s := Bracketed(prefix, inner);
            0 < IndexOf(s, '[') == |prefix| < |s| && s[..|prefix|] == prefix && s[|prefix|..] == "[" + (inner + "]")
  {
    IndexOfIs(Bracketed(prefix, inner), '[', |prefix|);
  }

  lemma RangeExpand(prefix: string, lo: nat, hi: nat)
    requires Valid(Range(prefix, lo, hi))
    ensures Expand(Print(Range(prefix, lo, hi))) == if hi < INT_MAX then Filled(Strings(Range(prefix, lo, hi))) else Unfilled
  {
    hide IndexOf, ScanRange, RangeStrings, Interval, IdStrings, Bracketed, RangeText, IsPrefix;
    var q := RangeText(lo, hi);
    BracketedSplits(prefix, q);
    RangeTextLacks(lo, hi);
    LacksConcat(q, "]", '-');
    LacksConcat("[", q + "]", '-');
    RangeScans(lo, hi, "]");
    RangeExpands(prefix, lo, hi);
  }

  lemma MembersExpand(prefix: string, ids: seq<nat>)
    requires Valid(Members(prefix, ids))
    ensures Expand(Print(Members(prefix, ids))) == Filled(Strings(Members(prefix, ids)))
  {
    hide IndexOf, ScanRange, ScanInt, TokenStrings, Bracketed, IsPrefix;
    var q := PrintIds(ids);
    BracketedSplits(prefix, q);
    IdsLack(ids);
    LacksConcat(q, "]", '-');
    LacksConcat("[", q + "]", '-');
    LacksConcat(q, "]", ',');
    LacksConcat("[", q + "]", ',');
    assert ("[" + (q + "]"))[1..] == q + "]";
    if |ids| == 1 {
      ScanPrinted(ids[0], "]");
      assert IdStrings(prefix, ids[1..]) == [];
    } else {
      TokensScan(prefix, ids);
    }
  }

  lemma CandidateExpands(e: Endpoint)
    requires Valid(e)
    ensures Expand(Print(e)) == if LoopEnds(e) then Filled(Strings(e)) else Unfilled
  {
    match e
    case Plain(text) => IndexOfIs(text, '[', |text|);
    case Range(prefix, lo, hi) => RangeExpand(prefix, lo, hi);
    case Members(prefix, ids) => MembersExpand(prefix, ids);
  }

  // ----- what the flat scan counts

  /** How the count goes on behind an entry. */
  function CountOn(rest: string, count: int): Option<int> {
    if rest == [] then Some(count) else CountFrom(rest[1..], count)
  }

  /** The count when more strings are added, and then the rest. */
  function Counted(count: int, more: nat, rest: string): Option<int> {
    if count + more <= INT_MAX then CountOn(rest, count + more) else None
  }

  lemma CountSplits(piece: string, rest: string, count: int)
    requires Lacks(piece, ',') && EndsEntry(rest)
    ensures CountFrom(piece + rest, count) ==
            match AddPiece(count, piece)
            case None => None
            case Some(n) => CountOn(rest, n)
  {
    hide AddPiece;
    var s := piece + rest;
    IndexOfIs(s, ',', |piece|);
    assert s[..|piece|] == piece;
    if rest != [] {
      assert s[|piece| + 1..] == rest[1..];
    }
  }

  lemma RangeCounts(prefix: string, lo: nat, hi: nat)
    requires IsPrefix(prefix) && lo <= INT_MAX && hi <= INT_MAX
    ensures ScanPrefixedRange(Bracketed(prefix, RangeText(lo, hi))) == Some((lo, hi))
  {
    hide IndexOf, ScanRange, Bracketed, RangeText, IsPrefix;
    BracketedSplits(prefix, RangeText(lo, hi));
    RangeScans(lo, hi, "]");
  }

  /** What may stand in front of a number of a list within one comma-separated piece. */
  predicate IsListHead(head: string) {
    head == [] || (head[|head| - 1] == '[' && IsPrefix(head[..|head| - 1]))
  }

  /** The start of a list up to its first comma, or one number of the list, with or without the
      closing bracket: not a range, so the flat scan counts it once. */
  lemma ListPieceCountsOnce(head: string, id: nat, tail: string)
    requires id <= INT_MAX && tail in {"", "]"} && IsListHead(head)
    ensures ScanPrefixedRange(head + (PrintNat(id) + tail)) == None
    ensures Lacks(head + (PrintNat(id) + tail), ',')
  {
    hide PrintNat, ScanInt;
    var s := head + (PrintNat(id) + tail);
    DigitsLack(id);
    if head == [] {
      IndexOfIs(s, '[', |s|);
    } else {
      IndexOfIs(s, '[', |head| - 1);
      assert s[|head| - 1..][1..] == PrintNat(id) + tail;
      ScanPrinted(id, tail);
    }
  }

  lemma {:induction false} IdsCount(head: string, ids: seq<nat>, rest: string, count: nat)
    requires ids != [] && (forall k | 0 <= k < |ids| :: ids[k] <= INT_MAX) && EndsEntry(rest)
    requires IsListHead(head) && count <= INT_MAX
    ensures CountFrom(head + (PrintIds(ids) + ("]" + rest)), count) == Counted(count, |ids|, rest)
    decreases |ids|
  {
    hide PrintNat, ScanPrefixedRange, CountFrom, IsPrefix;
    var d := PrintNat(ids[0]);
    if |ids| == 1 {
      ListPieceCountsOnce(head, ids[0], "]");
      RegroupFirst(head, d, "]", rest);
      CountSplits(head + (d + "]"), rest, count);
    } else {
      ListPieceCountsOnce(head, ids[0], "");
      assert d + "" == d;
      var more := PrintIds(ids[1..]) + ("]" + rest);
      RegroupAfterComma(head, d, PrintIds(ids[1..]), "]" + rest);
      CountSplits(head + d, "," + more, count);
      assert ("," + more)[1..] == more == "" + more;
      if count < INT_MAX {
        IdsCount("", ids[1..], rest, count + 1);
      }
    }
  }

  lemma {:induction false} IntervalSize(lo: nat, hi: nat)
    requires lo <= hi
    ensures |Interval(lo, hi)| == hi - lo + 1
    decreases hi - lo
  {
    if lo == hi {
    } else {
      IntervalSize(lo + 1, hi);
    }
  }

  lemma PlainCountsOnce(text: string)
    requires Lacks(text, '[')
    ensures ScanPrefixedRange(text) == None
  {
    IndexOfIs(text, '[', |text|);
  }

  lemma EntryCounts(e: Endpoint, rest: string, count: nat)
    requires Valid(e) && EndsEntry(rest) && count <= INT_MAX
    ensures CountFrom(Print(e) + rest, count) == Counted(count, |Strings(e)|, rest)
  {
    hide ScanPrefixedRange, CountFrom, RangeText, PrintIds;
    match e
    case Plain(text) =>
      CountSplits(text, rest, count);
      assert ScanPrefixedRange(text) == None by { PlainCountsOnce(text); }
    case Range(prefix, lo, hi) =>
      RangeTextLacks(lo, hi);
      CountSplits(Print(e), rest, count);
      RangeCounts(prefix, lo, hi);
      IntervalSize(lo, hi);
    case Members(prefix, ids) =>
      assert (prefix + "[")[..|prefix|] == prefix;
      IdsCount(prefix + "[", ids, rest, count);
      assert Print(e) + rest == (prefix + "[") + (PrintIds(ids) + ("]" + rest));
  }

  // ----- the theorems

  lemma {:induction false} FillsAll(es: seq<Endpoint>)
    requires es != [] && AllValid(es)
    ensures FillFrom(PrintAll(es)) == if AllLoopsEnd(es) then Filled(AllStrings(es)) else Unfilled
  {
    hide Valid, Print, Expand, CandidateLength, Strings, LoopEnds;
    var p := Print(es[0]);
    CandidateExpands(es[0]);
    if |es| == 1 {
      CandidateEnds(es[0], []);
      assert p + [] == p && p[..|p|] == p;
      assert es[1..] == [] && Strings(es[0]) + [] == Strings(es[0]);
    } else {
      var rest := PrintAll(es[1..]);
      var s := p + ("," + rest);
      CandidateEnds(es[0], "," + rest);
      assert s[..|p|] == p && s[|p| + 1..] == rest;
      FillsAll(es[1..]);
    }
  }

  lemma {:induction false} ListCounts(es: seq<Endpoint>, count: nat)
    requires es != [] && AllValid(es) && count <= INT_MAX
    ensures CountFrom(PrintAll(es), count) == Counted(count, |AllStrings(es)|, [])
  {
    hide Valid, Print, Strings, CountFrom;
    if |es| == 1 {
      EntryCounts(es[0], [], count);
      assert Print(es[0]) + [] == Print(es[0]);
      assert AllStrings(es[1..]) == [];
    } else {
      var rest := PrintAll(es[1..]);
      EntryCounts(es[0], "," + rest, count);
      assert ("," + rest)[1..] == rest;
      if count + |Strings(es[0])| <= INT_MAX {
        ListCounts(es[1..], count + |Strings(es[0])|);
      }
    }
  }

  /** The two scanners agree: the flat scan counts the strings that the other one writes, as long as
      an int can count them and no range runs up to the largest int. */
  lemma ScannersAgree(es: seq<Endpoint>)
    requires es != [] && AllValid(es)
    ensures FillFrom(PrintAll(es)) == if AllLoopsEnd(es) then Filled(AllStrings(es)) else Unfilled
    ensures FlatCount(PrintAll(es)) == if |AllStrings(es)| <= INT_MAX then Some(|AllStrings(es)|) else None
  {
    hide FillFrom, CountFrom, AllStrings, PrintAll;
    FillsAll(es);
    ListCounts(es, 0);
  }

  lemma PrintsSomething(es: seq<Endpoint>)
    requires es != [] && AllValid(es) && es != [Plain("")]
    ensures PrintAll(es) != []
  {
    if |es| == 1 {
      assert es == [es[0]];
    }
  }

  /** Writing an endpoint list down and parsing it gives the connection strings it stands for, in
      order. The one list that is refused is the single empty entry, which is written as nothing. Apart
      from that the parse is defined exactly if an int can count the strings, and can count one past the
      end of every range. */
  lemma PrintParse(es: seq<Endpoint>)
    requires es != [] && AllValid(es)
    ensures Parse(Some(PrintAll(es))) ==
            if es == [Plain("")] then Rejected
            else if |AllStrings(es)| <= INT_MAX && AllLoopsEnd(es) then Parsed(AllStrings(es)) else Undefined
  {
    hide FillFrom, FlatCount, AllStrings, AllLoopsEnd;
    if es == [Plain("")] {
      assert PrintAll(es) == "";
    } else {
      ScannersAgree(es);
      PrintsSomething(es);
    }
  }

  lemma {:induction false} IntervalBounds(lo: nat, hi: nat)
    requires lo <= hi
    ensures Interval(lo, hi) != [] && forall k | 0 <= k < |Interval(lo, hi)| :: Interval(lo, hi)[k] <= hi
    decreases hi - lo
  {
    if lo == hi {
    } else {
      IntervalBounds(lo + 1, hi);
    }
  }

  function Spelled(prefix: string, ids: seq<nat>): (es: seq<Endpoint>)
    ensures |es| == |ids|
  {
    if ids == [] then [] else [Plain(prefix + PrintNat(ids[0]))] + Spelled(prefix, ids[1..])
  }

  lemma {:induction false} SpelledStrings(prefix: string, ids: seq<nat>)
    requires IsPrefix(prefix)
    ensures AllValid(Spelled(prefix, ids)) && AllStrings(Spelled(prefix, ids)) == IdStrings(prefix, ids)
    ensures AllLoopsEnd(Spelled(prefix, ids))
  {
    if ids == [] {
    } else {
      DigitsLack(ids[0]);
      LacksConcat(prefix, PrintNat(ids[0]), ',');
      LacksConcat(prefix, PrintNat(ids[0]), '[');
      SpelledStrings(prefix, ids[1..]);
      assert Spelled(prefix, ids)[1..] == Spelled(prefix, ids[1..]);
    }
  }

  /** What the notation covers: any text without comma and bracket, any range and any list of numbers that
      an int holds, behind any prefix without comma and brackets. */
  lemma NotationCovers(text: string, prefix: string, lo: nat, hi: nat, ids: seq<nat>)
    ensures (forall k | 0 <= k < |text| :: text[k] != ',' && text[k] != '[') ==> Valid(Plain(text))
    ensures prefix != [] && (forall k | 0 <= k < |prefix| :: prefix[k] !in {',', '[', ']'}) ==>
              && (lo <= hi <= 2147483647 ==> Valid(Range(prefix, lo, hi)))
              && (ids != [] && (forall k | 0 <= k < |ids| :: ids[k] <= 2147483647) ==> Valid(Members(prefix, ids)))
  {
  }

  /** With room for only so many strings, a list that is too long is refused before anything is filled. */
  lemma PrintParseWithin(es: seq<Endpoint>, granted: nat)
    requires es != [] && AllValid(es)
    ensures ParseWithin(Some(PrintAll(es)), granted) ==
            if es == [Plain("")] then Rejected
            else if |AllStrings(es)| > INT_MAX then Undefined
            else if |AllStrings(es)| > granted then Rejected
            else if AllLoopsEnd(es) then Parsed(AllStrings(es)) else Undefined
  {
    hide Parse, FlatCount, FillFrom, AllStrings, AllLoopsEnd;
    PrintParse(es);
    if es == [Plain("")] {
      assert PrintAll(es) == "";
    } else {
      PrintsSomething(es);
      ScannersAgree(es);
    }
  }

  lemma SpelledIsPlain(prefix: string, ids: seq<nat>)
    requires IsPrefix(prefix) && ids != []
    ensures Spelled(prefix, ids) != [] && Spelled(prefix, ids) != [Plain("")]
  {
    assert Spelled(prefix, ids)[0].text == prefix + PrintNat(ids[0]);
  }

  lemma OneEntryParses(e: Endpoint)
    requires Valid(e) && !e.Plain?
    ensures Parse(Some(Print(e))) ==
            if |Strings(e)| <= INT_MAX && LoopEnds(e) then Parsed(Strings(e)) else Undefined
    ensures FlatCount(Print(e)) == if |Strings(e)| <= INT_MAX then Some(|Strings(e)|) else None
  {
    hide Parse, Print, Strings, LoopEnds, Valid, FlatCount, FillFrom;
    PrintParse([e]);
    ScannersAgree([e]);
    assert AllStrings([e][1..]) == [] && Strings(e) + [] == Strings(e);
    assert AllStrings([e]) == Strings(e);
    assert AllLoopsEnd([e]) <==> LoopEnds([e][0]);
  }

  lemma RangeParses(prefix: string, lo: nat, hi: nat)
    requires Valid(Range(prefix, lo, hi))
    ensures Parse(Some(Print(Range(prefix, lo, hi)))) ==
            if hi < INT_MAX then Parsed(IdStrings(prefix, Interval(lo, hi))) else Undefined
  {
    IntervalSize(lo, hi);
    hide Parse, Interval, IdStrings, Print, IsPrefix;
    OneEntryParses(Range(prefix, lo, hi));
  }

  lemma RangeIsCounted(prefix: string, lo: nat, hi: nat)
    requires Valid(Range(prefix, lo, hi))
    ensures FlatCount(Print(Range(prefix, lo, hi))) == if hi - lo < INT_MAX then Some(hi - lo + 1) else None
  {
    IntervalSize(lo, hi);
    hide Parse, FlatCount, Interval, IdStrings, Print, IsPrefix;
    OneEntryParses(Range(prefix, lo, hi));
  }

  lemma MembersParse(prefix: string, ids: seq<nat>)
    requires Valid(Members(prefix, ids))
    ensures Parse(Some(Print(Members(prefix, ids)))) ==
            if |ids| <= INT_MAX then Parsed(IdStrings(prefix, ids)) else Undefined
  {
    hide Parse, IdStrings, Print, IsPrefix;
    OneEntryParses(Members(prefix, ids));
  }

  lemma SpelledParse(prefix: string, ids: seq<nat>)
    requires IsPrefix(prefix) && ids != []
    ensures AllValid(Spelled(prefix, ids)) && Spelled(prefix, ids) != []
    ensures Parse(Some(PrintAll(Spelled(prefix, ids)))) ==
            if |ids| <= INT_MAX then Parsed(IdStrings(prefix, ids)) else Undefined
  {
    hide Parse, IdStrings, PrintAll, AllStrings, Spelled, IsPrefix, AllValid, AllLoopsEnd;
    SpelledStrings(prefix, ids);
    SpelledIsPlain(prefix, ids);
    PrintParse(Spelled(prefix, ids));
  }

  /** A range, the list of its numbers and the spelled-out entries mean the same, and parse the same as
      long as an int can count them; a range must also stop short of the largest int. */
  lemma NotationsAgree(prefix: string, lo: nat, hi: nat)
    requires Valid(Range(prefix, lo, hi))
    ensures var ids, same := Interval(lo, hi), Parsed(IdStrings(prefix, Interval(lo, hi)));
            && Valid(Members(prefix, ids)) && AllValid(Spelled(prefix, ids)) && Spelled(prefix, ids) != []
            && Parse(Some(Print(Range(prefix, lo, hi)))) == (if hi < INT_MAX then same else Undefined)
            && Parse(Some(Print(Members(prefix, ids)))) == (if |ids| <= INT_MAX then same else Undefined)
            && Parse(Some(PrintAll(Spelled(prefix, ids)))) == (if |ids| <= INT_MAX then same else Undefined)
  {
    IntervalBounds(lo, hi);
    hide Parse, Interval, IdStrings, PrintAll, Print, Spelled, IsPrefix, AllValid;
    RangeParses(prefix, lo, hi);
    MembersParse(prefix, Interval(lo, hi));
    SpelledParse(prefix, Interval(lo, hi));
  }

  /** A range up to the largest int is counted, if it is not too long, and yet cannot be written. */
  lemma RangeToMaxIsUndefined(prefix: string, lo: nat)
    requires Valid(Range(prefix, lo, INT_MAX))
    ensures FlatCount(Print(Range(prefix, lo, INT_MAX))) == if lo > 0 then Some(INT_MAX - lo + 1) else None
    ensures Parse(Some(Print(Range(prefix, lo, INT_MAX)))) == Undefined
  {
    hide Parse, FlatCount, Interval, IdStrings, Print, IsPrefix;
    RangeParses(prefix, lo, INT_MAX);
    RangeIsCounted(prefix, lo, INT_MAX);
  }

  // ----- what a parse hands out is spelled out

  predicate Clean(s: string) {
    Lacks(s, ',') && Lacks(s, '[')
  }

  predicate AllClean(xs: seq<string>) {
    forall k | 0 <= k < |xs| :: Clean(xs[k])
  }

  lemma NumberedIsClean(prefix: string, i: int)
    requires Clean(prefix)
    ensures Clean(prefix + PrintInt(i))
  {
    var n := if i < 0 then -i else i;
    DigitsLack(n);
    LacksConcat("-", PrintNat(n), ',');
    LacksConcat("-", PrintNat(n), '[');
    hide PrintNat;
    LacksConcat(prefix, PrintInt(i), ',');
    LacksConcat(prefix, PrintInt(i), '[');
  }

  lemma {:induction false} RangeStringsClean(prefix: string, lo: int, hi: int)
    requires Clean(prefix)
    ensures AllClean(RangeStrings(prefix, lo, hi))
    decreases hi - lo
  {
    hide Clean, PrintInt;
    if lo > hi {
    } else {
      NumberedIsClean(prefix, lo);
      RangeStringsClean(prefix, lo + 1, hi);
    }
  }

  lemma {:induction false} TokenStringsClean(prefix: string, s: string)
    requires Clean(prefix)
    ensures AllClean(TokenStrings(prefix, s))
    decreases |s|
  {
    hide Clean, PrintInt, Atoi;
    match NextToken(s)
    case None =>
    case Some((tok, rest)) =>
      NumberedIsClean(prefix, Atoi(tok));
      TokenStringsClean(prefix, rest);
  }

  lemma ExpandClean(candidate: string)
    requires Lacks(candidate[..IndexOf(candidate, '[')], ',')
    ensures Expand(candidate).Filled? ==> AllClean(Expand(candidate).strings)
  {
    hide ScanRange, ScanInt, PrintInt;
    var open := IndexOf(candidate, '[');
    var prefix, range := candidate[..open], candidate[open..];
    assert Clean(prefix);
    if open == |candidate| {
      assert prefix == candidate;
    } else if open > 0 {
      TokenStringsClean(prefix, range[1..]);
      var r := ScanRange(range);
      if r.Some? {
        RangeStringsClean(prefix, r.value.0, r.value.1);
      }
      var i := ScanInt(range[1..]);
      if i.Match? {
        NumberedIsClean(prefix, i.value);
      }
    }
  }

  lemma PastBracketForward(s: string, stop: nat, close: nat)
    requires stop <= |s| && close <= |s|
    ensures PastBracket(s, stop, close) >= stop
    decreases |s| - stop
  {
  }

  /** A candidate has no comma in front of its bracket. */
  lemma CandidateBeforeBracket(s: string)
    ensures var c := s[..CandidateLength(s)]; Lacks(c[..IndexOf(c, '[')], ',')
  {
    hide PastBracket;
    var n, comma, open := CandidateLength(s), IndexOf(s, ','), IndexOf(s, '[');
    var c := s[..n];
    if open < comma {
      PastBracketForward(s, comma, IndexOf(s, ']'));
      IndexOfIs(c, '[', open);
    } else {
      assert Lacks(c, ',');
    }
  }

  lemma {:induction false} FillClean(s: string)
    ensures FillFrom(s).Filled? ==> AllClean(FillFrom(s).strings)
    decreases |s|
  {
    hide Expand, CandidateLength, Clean, IndexOf;
    var n := CandidateLength(s);
    CandidateBeforeBracket(s);
    ExpandClean(s[..n]);
    if n == |s| {
    } else {
      FillClean(s[n + 1..]);
    }
  }

  function AsPlain(xs: seq<string>): (es: seq<Endpoint>)
    ensures |es| == |xs|
    ensures forall k | 0 <= k < |xs| :: es[k] == Plain(xs[k])
  {
    if xs == [] then [] else [Plain(xs[0])] + AsPlain(xs[1..])
  }

  lemma {:induction false} JoinIsPrint(xs: seq<string>)
    requires xs != [] && AllClean(xs)
    ensures AllValid(AsPlain(xs))
    ensures Join(xs, ',') == PrintAll(AsPlain(xs)) && AllStrings(AsPlain(xs)) == xs
  {
    hide Lacks;
    if |xs| == 1 {
      assert AsPlain(xs)[1..] == [];
      assert xs == [xs[0]] + [];
    } else {
      JoinIsPrint(xs[1..]);
      assert AsPlain(xs)[1..] == AsPlain(xs[1..]);
      assert xs[0] + [','] + Join(xs[1..], ',') == xs[0] + ("," + Join(xs[1..], ','));
      assert xs == [xs[0]] + xs[1..];
    }
  }

  lemma {:induction false} CountIsInt(s: string, count: int)
    ensures CountFrom(s, count).Some? ==> IsInt(CountFrom(s, count).value)
    decreases |s|
  {
    hide ScanPrefixedRange;
    var stop := IndexOf(s, ',');
    var n := AddPiece(count, s[..stop]);
    if stop == |s| || n.None? {
    } else {
      CountIsInt(s[stop + 1..], n.value);
    }
  }

  lemma ParsedIsCountable(text: string, xs: seq<string>)
    requires Parse(Some(text)) == Parsed(xs)
    ensures AllClean(xs) && |xs| <= INT_MAX
  {
    hide FillFrom, CountFrom;
    FillClean(text);
    CountIsInt(text, 0);
  }

  lemma NothingCountsOne()
    ensures FlatCount("") == Some(1) && Parse(Some("")) == Rejected
  {
    PlainCountsOnce("");
  }

  lemma OnlyEmptyIsPlain(xs: seq<string>)
    ensures xs == [""] <==> AsPlain(xs) == [Plain("")]
  {
    if |xs| == 1 {
      assert xs == [xs[0]] && AsPlain(xs) == [AsPlain(xs)[0]];
    }
  }

  /** Parsing normalises, for every string that parses at all: joined by commas, the strings found
      parse to themselves again, unless nothing or only one empty string was found. */
  lemma ParseNormalises(text: string, xs: seq<string>)
    requires Parse(Some(text)) == Parsed(xs)
    ensures Parse(Some(Join(xs, ','))) == Parsed(xs) <==> xs != [] && xs != [""]
    ensures FlatCount(Join(xs, ',')) == Some(|xs|) <==> xs != []
  {
    ParsedIsCountable(text, xs);
    if xs == [] {
      NothingCountsOne();
    } else {
      JoinIsPrint(xs);
      hide Parse, FlatCount;
      PrintParse(AsPlain(xs));
      ScannersAgree(AsPlain(xs));
      OnlyEmptyIsPlain(xs);
    }
  }

  // ----- outside the notation

  /** The text behind the entries of a list. */
  function Behind(es: seq<Endpoint>, text: string): string
    requires AllValid(es)
  {
    if es == [] then text else Print(es[0]) + ("," + Behind(es[1..], text))
  }

  lemma BareBracketUnfilled(text: string)
    requires text != [] && text[0] == '['
    ensures FillFrom(text).Unfilled?
  {
    hide PastBracket;
    var comma := IndexOf(text, ',');
    assert IndexOf(text, '[') == 0 < comma;
    PastBracketForward(text, comma, IndexOf(text, ']'));
    var c := text[..CandidateLength(text)];
    assert c[0] == '[' && IndexOf(c, '[') == 0;
  }

  lemma {:induction false} UnfilledBehind(es: seq<Endpoint>, text: string)
    requires AllValid(es) && FillFrom(text).Unfilled?
    ensures FillFrom(Behind(es, text)).Unfilled?
  {
    hide Valid, Print, Expand, CandidateLength;
    if es == [] {
    } else {
      var p, rest := Print(es[0]), Behind(es[1..], text);
      CandidateExpands(es[0]);
      CandidateEnds(es[0], "," + rest);
      var s := p + ("," + rest);
      assert s[..|p|] == p && s[|p| + 1..] == rest;
      UnfilledBehind(es[1..], text);
    }
  }

  /** Without a prefix the string to prepend is never set, or has been freed with the entry before:
      an entry that starts with its bracket makes the parse undefined wherever it stands in a list. */
  lemma NoPrefixIsUndefined(es: seq<Endpoint>, text: string)
    requires AllValid(es) && text != [] && text[0] == '['
    ensures Parse(Some(Behind(es, text))) == Undefined
  {
    hide FillFrom, FlatCount;
    BareBracketUnfilled(text);
    UnfilledBehind(es, text);
    assert Behind(es, text) != [];
  }

  lemma EmptyEntry(count: int)
    ensures FillFrom("") == Filled([""])
    ensures CountFrom("", count) == if IsInt(count + 1) then Some(count + 1) else None
  {
    PlainCountsOnce("");
    CandidateEnds(Plain(""), "");
    CandidateExpands(Plain(""));
  }

  lemma BracketedLacks(prefix: string, inner: string)
    requires IsPrefix(prefix) && Lacks(inner, ',')
    ensures Lacks(Bracketed(prefix, inner), ',')
  {
    LacksConcat(inner, "]", ',');
    LacksConcat("[", inner + "]", ',');
    LacksConcat(prefix, "[" + (inner + "]"), ',');
  }

  lemma ReversedExpands(prefix: string, lo: nat, hi: nat)
    requires IsPrefix(prefix) && hi < lo <= INT_MAX
    ensures Expand(Bracketed(prefix, RangeText(lo, hi))) == Filled([])
  {
    hide IndexOf, ScanRange, Bracketed, RangeText, IsPrefix;
    var q := RangeText(lo, hi);
    BracketedSplits(prefix, q);
    RangeTextLacks(lo, hi);
    LacksConcat(q, "]", '-');
    LacksConcat("[", q + "]", '-');
    RangeScans(lo, hi, "]");
  }

  /** A range whose bounds are reversed expands to nothing. The flat scan agrees only if they are
      reversed by one; so this is how a parse can find no string, or behind a comma one empty string. */
  lemma ReversedRange(prefix: string, lo: nat, hi: nat)
    requires IsPrefix(prefix) && hi < lo <= INT_MAX
    ensures var text := Bracketed(prefix, RangeText(lo, hi));
            && Parse(Some(text)) == (if lo == hi + 1 then Parsed([]) else Undefined)
            && Parse(Some(text + ",")) == (if lo == hi + 1 then Parsed([""]) else Undefined)
            && FlatCount(text) == Some(hi - lo + 1)
  {
    hide Expand, CandidateLength, CountFrom, ScanPrefixedRange, Bracketed, RangeText;
    var text := Bracketed(prefix, RangeText(lo, hi));
    BracketedSplits(prefix, RangeText(lo, hi));
    RangeTextLacks(lo, hi);
    ReversedExpands(prefix, lo, hi);
    RangeCounts(prefix, lo, hi);
    assert Lacks(text, ',') by { BracketedLacks(prefix, RangeText(lo, hi)); }
    BracketedLength(prefix, RangeText(lo, hi), []);
    BracketedLength(prefix, RangeText(lo, hi), ",");
    CountSplits(text, [], 0);
    CountSplits(text, ",", 0);
    assert text + [] == text && text[..|text|] == text;
    assert (text + ",")[..|text|] == text && (text + ",")[|text| + 1..] == "" && ","[1..] == "";
    EmptyEntry(hi - lo + 1);
  }

  lemma Examples()
    ensures Bracketed("p", "5-4") == "p[5-4]" && Bracketed("p", "6-4") == "p[6-4]"
  {
  }

  /** A count below zero asks malloc for some four thousand million slots. */
  lemma ReversedRangeWithin(prefix: string, lo: nat, hi: nat, granted: nat)
    requires IsPrefix(prefix) && hi + 1 < lo <= INT_MAX
    ensures ParseWithin(Some(Bracketed(prefix, RangeText(lo, hi))), granted)
            == if granted < 4294967296 - (lo - hi - 1) then Rejected else Undefined
  {
    hide Bracketed, RangeText, FlatCount, FillFrom;
    ReversedRange(prefix, lo, hi);
    assert Bracketed(prefix, RangeText(lo, hi)) != "" by { BracketedSplits(prefix, RangeText(lo, hi)); }
  }

  lemma ReversedInputs()
    ensures Parse(Some("p[5-4]")) == Parsed([]) && Parse(Some("p[5-4],")) == Parsed([""])
    ensures Parse(Some("p[6-4]")) == Undefined
  {
    hide Parse, Bracketed;
    ReversedRange("p", 5, 4);
    ReversedRange("p", 6, 4);
    assert RangeText(5, 4) == "5-4" && RangeText(6, 4) == "6-4";
    assert Bracketed("p", "5-4") == "p[5-4]" && Bracketed("p", "6-4") == "p[6-4]" by { Examples(); }
    assert "p[5-4]" + "," == "p[5-4],";
  }

  lemma RangeThenNumberFills(prefix: string, lo: nat, hi: nat, id: nat)
    requires Valid(Range(prefix, lo, hi)) && id <= INT_MAX
    ensures FillFrom(Bracketed(prefix, RangeText(lo, hi) + ("," + PrintNat(id))))
            == if hi < INT_MAX then Filled(IdStrings(prefix, Interval(lo, hi))) else Unfilled
  {
    hide IdStrings, Interval, RangeStrings, CandidateLength, Bracketed, RangeText, ScanRange, PrintNat, IndexOf, IsPrefix;
    var q := RangeText(lo, hi);
    var inner := q + ("," + PrintNat(id));
    RangeTextLacks(lo, hi);
    DigitsLack(id);
    LacksConcat(",", PrintNat(id), ']');
    LacksConcat(q, "," + PrintNat(id), ']');
    LacksConcat(q, "," + PrintNat(id), '-');
    LacksConcat(inner, "]", '-');
    LacksConcat("[", inner + "]", '-');
    BracketedSplits(prefix, inner);
    var text := Bracketed(prefix, inner);
    BracketedLength(prefix, inner, []);
    assert text + [] == text && text[..|text|] == text;
    RangeScans(lo, hi, "," + (PrintNat(id) + "]"));
    assert inner + "]" == q + ("," + (PrintNat(id) + "]"));
    RangeExpands(prefix, lo, hi);
  }

  lemma OpenRangeCounts(prefix: string, lo: nat, hi: nat)
    requires Valid(Range(prefix, lo, hi))
    ensures var s := prefix + ("[" + RangeText(lo, hi)); ScanPrefixedRange(s) == Some((lo, hi)) && Lacks(s, ',')
  {
    hide RangeText, ScanRange;
    RangeTextLacks(lo, hi);
    var s := prefix + ("[" + RangeText(lo, hi));
    IndexOfIs(s, '[', |prefix|);
    RangeScans(lo, hi, []);
    assert RangeText(lo, hi) + [] == RangeText(lo, hi);
    assert s[|prefix|..] == "[" + RangeText(lo, hi);
  }

  lemma RangeThenNumberCounts(prefix: string, lo: nat, hi: nat, id: nat)
    requires Valid(Range(prefix, lo, hi)) && id <= INT_MAX
    ensures FlatCount(Bracketed(prefix, RangeText(lo, hi) + ("," + PrintNat(id)))) == Counted(0, hi - lo + 2, [])
  {
    hide CountFrom, ScanPrefixedRange, PrintNat, RangeText;
    var q, n := RangeText(lo, hi), "" + (PrintNat(id) + "]");
    var first := prefix + ("[" + q);
    OpenRangeCounts(prefix, lo, hi);
    ListPieceCountsOnce("", id, "]");
    RegroupAfterComma(prefix + "[", q, PrintNat(id), "]");
    assert n == PrintNat(id) + "]";
    assert Bracketed(prefix, q + ("," + PrintNat(id))) == (prefix + "[") + ((q + ("," + PrintNat(id))) + "]");
    assert first == (prefix + "[") + q;
    CountSplits(first, "," + n, 0);
    assert ("," + n)[1..] == n == n + [];
    CountSplits(n, [], hi - lo + 1);
  }

  lemma BracketedIsText(prefix: string, inner: string)
    ensures Bracketed(prefix, inner) != []
  {
  }

  lemma MismatchIsUndefined(text: string)
    requires text != []
    requires FillFrom(text).Filled? ==> FlatCount(text) != Some(|FillFrom(text).strings|)
    ensures Parse(Some(text)) == Undefined
  {
    hide FillFrom, FlatCount;
  }

  /** A range followed by a further number in one bracket: the scanners disagree, for the flat one
      counts the number, and the other reads the range only. */
  lemma RangeThenNumberIsUndefined(prefix: string, lo: nat, hi: nat, id: nat)
    requires Valid(Range(prefix, lo, hi)) && id <= INT_MAX
    ensures var text := Bracketed(prefix, RangeText(lo, hi) + ("," + PrintNat(id)));
            && FillFrom(text) == (if hi < INT_MAX then Filled(IdStrings(prefix, Interval(lo, hi))) else Unfilled)
            && FlatCount(text) == Counted(0, |IdStrings(prefix, Interval(lo, hi))| + 1, [])
            && Parse(Some(text)) == Undefined
  {
    hide FlatCount, FillFrom, IdStrings, Interval, Bracketed, RangeText, PrintNat, IsPrefix;
    var text := Bracketed(prefix, RangeText(lo, hi) + ("," + PrintNat(id)));
    RangeThenNumberFills(prefix, lo, hi, id);
    RangeThenNumberCounts(prefix, lo, hi, id);
    IntervalSize(lo, hi);
    BracketedIsText(prefix, RangeText(lo, hi) + ("," + PrintNat(id)));
    MismatchIsUndefined(text);
  }

  /** An open bracket that is never closed does not hold a candidate together. */
  lemma UnclosedEndsAtComma(s: string)
    requires Lacks(s, ']')
    ensures CandidateLength(s) == IndexOf(s, ',')
  {
  }

  /** What is in brackets and cannot be read leaves a number unset: a single member that does not start with
      a number, or a range without two. */
  lemma UnreadableBrackets(prefix: string, inner: string)
    requires IsPrefix(prefix) && Lacks(inner, ']')
    requires if Lacks(inner, '-') then Lacks(inner, ',') && ScanInt(inner + "]").NoMatch?
             else ScanRange("[" + (inner + "]")).None?
    ensures Parse(Some(Bracketed(prefix, inner))) == Undefined
  {
    hide Bracketed, ScanInt, ScanRange, FlatCount, CandidateLength, IsPrefix;
    var text := Bracketed(prefix, inner);
    BracketedSplits(prefix, inner);
    BracketedLength(prefix, inner, []);
    assert text + [] == text && text[..|text|] == text;
    LacksConcat(inner, "]", '-');
    LacksConcat("[", inner + "]", '-');
    LacksConcat(inner, "]", ',');
    LacksConcat("[", inner + "]", ',');
    assert ("[" + (inner + "]"))[1..] == inner + "]";
  }

  lemma Marks()
    ensures !Lacks("-", '-') && !Lacks(",,", ',') && Lacks("-", ']')
  {
    assert "-"[0] == '-' && ",,"[0] == ',';
  }

  lemma NegativeUnread(n: nat)
    requires n <= INT_MAX
    ensures ScanRange("[" + (("-" + PrintNat(n)) + "]")) == None
  {
    hide PrintNat, ScanInt;
    SignRead(n, "]");
    assert ("[" + (("-" + PrintNat(n)) + "]"))[1..] == "-" + (PrintNat(n) + "]");
  }

  lemma OpenEndUnread(n: nat)
    requires n <= INT_MAX
    ensures ScanRange("[" + ((PrintNat(n) + "-") + "]")) == None
  {
    hide PrintNat, ScanInt;
    ScanPrinted(n, "-]");
    NoNumber("]");
    assert ("[" + ((PrintNat(n) + "-") + "]"))[1..] == PrintNat(n) + "-]" && "-]"[1..] == "]";
  }

  /** So nothing in brackets, a negative number, and a range without an end. */
  lemma UnreadableInputs(prefix: string, n: nat)
    requires IsPrefix(prefix) && n <= INT_MAX
    ensures Parse(Some(Bracketed(prefix, ""))) == Undefined
    ensures Parse(Some(Bracketed(prefix, "-" + PrintNat(n)))) == Undefined
    ensures Parse(Some(Bracketed(prefix, PrintNat(n) + "-"))) == Undefined
  {
    hide Bracketed, PrintNat, ScanInt, Parse, IsPrefix;
    assert "" + "]" == "]";
    NoNumber("]");
    UnreadableBrackets(prefix, "");
    DigitsLack(n);
    Marks();
    NegativeUnread(n);
    LacksConcat("-", PrintNat(n), ']');
    LacksConcat("-", PrintNat(n), '-');
    UnreadableBrackets(prefix, "-" + PrintNat(n));
    OpenEndUnread(n);
    LacksConcat(PrintNat(n), "-", ']');
    LacksConcat(PrintNat(n), "-", '-');
    UnreadableBrackets(prefix, PrintNat(n) + "-");
  }

  lemma CommaSkipped(s: string)
    requires s != [] && s[0] != ','
    ensures NextToken("," + s) == NextToken(s)
  {
    assert ("," + s)[1..] == s == s[0..];
    assert CommaRun("," + s) == 1 && CommaRun(s) == 0;
  }

  lemma TokenThenRest(prefix: string, tok: string, rest: string)
    requires tok != [] && Lacks(tok, ',') && EndsEntry(rest)
    ensures TokenStrings(prefix, tok + rest)
            == [prefix + PrintInt(Atoi(tok))] + TokenStrings(prefix, if rest == [] then [] else rest[1..])
  {
    hide PrintInt, Atoi, NextToken;
    NextTokenIs(tok, rest);
  }

  lemma GapIsSkipped(prefix: string, s: string)
    requires s != [] && s[0] != ','
    ensures TokenStrings(prefix, "," + s) == TokenStrings(prefix, s)
  {
    hide PrintInt, Atoi, NextToken;
    CommaSkipped(s);
  }

  lemma NumberToken(n: nat)
    requires n <= INT_MAX
    ensures var d := PrintNat(n);
            && d != [] && d[0] != ',' && Lacks(d, ',') && Lacks(d + "]", ',')
            && PrintInt(Atoi(d)) == d && PrintInt(Atoi(d + "]")) == d
  {
    DigitsLack(n);
    ScanPrinted(n, []);
    ScanPrinted(n, "]");
    hide PrintNat, ScanInt;
    assert PrintNat(n) + [] == PrintNat(n);
    LacksConcat(PrintNat(n), "]", ',');
  }

  lemma NoTokens(prefix: string)
    ensures TokenStrings(prefix, []) == []
  {
  }

  lemma LastToken(prefix: string, n: nat)
    requires n <= INT_MAX
    ensures var last := PrintNat(n) + "]";
            last != [] && last[0] != ',' && TokenStrings(prefix, last) == [prefix + PrintNat(n)]
  {
    NumberToken(n);
    NoTokens(prefix);
    hide PrintNat, PrintInt, Atoi, TokenStrings;
    var last := PrintNat(n) + "]";
    TokenThenRest(prefix, last, []);
    assert last + [] == last;
  }

  lemma TwoCommas(s: string)
    ensures EndsEntry(",," + s) && ",," + s != [] && (",," + s)[1..] == "," + s
  {
  }

  /** strtok takes several commas for one. */
  lemma StrtokSkips(prefix: string, a: nat, b: nat)
    requires a <= INT_MAX && b <= INT_MAX
    ensures TokenStrings(prefix, PrintNat(a) + (",," + (PrintNat(b) + "]"))) == [prefix + PrintNat(a), prefix + PrintNat(b)]
  {
    NumberToken(a);
    LastToken(prefix, b);
    TwoCommas(PrintNat(b) + "]");
    hide PrintNat, PrintInt, Atoi, TokenStrings, EndsEntry;
    TokenThenRest(prefix, PrintNat(a), ",," + (PrintNat(b) + "]"));
    GapIsSkipped(prefix, PrintNat(b) + "]");
  }

  lemma EmptyItemLacks(a: nat, b: nat)
    ensures var inner := PrintNat(a) + (",," + PrintNat(b));
            Lacks(inner, ']') && Lacks(inner, '-') && !Lacks(inner, ',')
  {
    DigitsLack(a);
    DigitsLack(b);
    Marks();
    hide PrintNat;
    LacksConcat(",,", PrintNat(b), ']');
    LacksConcat(",,", PrintNat(b), '-');
    LacksConcat(",,", PrintNat(b), ',');
    LacksConcat(PrintNat(a), ",," + PrintNat(b), ']');
    LacksConcat(PrintNat(a), ",," + PrintNat(b), '-');
    LacksConcat(PrintNat(a), ",," + PrintNat(b), ',');
  }

  lemma EmptyItemFills(prefix: string, a: nat, b: nat)
    requires IsPrefix(prefix) && a <= INT_MAX && b <= INT_MAX
    ensures FillFrom(Bracketed(prefix, PrintNat(a) + (",," + PrintNat(b))))
            == Filled([prefix + PrintNat(a), prefix + PrintNat(b)])
  {
    hide CandidateLength, Bracketed, ScanRange, ScanInt, PrintNat, IndexOf, IsPrefix, TokenStrings;
    var inner := PrintNat(a) + (",," + PrintNat(b));
    var text := Bracketed(prefix, inner);
    EmptyItemLacks(a, b);
    LacksConcat(inner, "]", '-');
    LacksConcat("[", inner + "]", '-');
    LacksConcat(inner, "]", ',');
    LacksConcat("[", inner + "]", ',');
    BracketedSplits(prefix, inner);
    BracketedLength(prefix, inner, []);
    assert text + [] == text && text[..|text|] == text;
    StrtokSkips(prefix, a, b);
    assert ("[" + (inner + "]"))[1..] == inner + "]" == PrintNat(a) + (",," + (PrintNat(b) + "]"));
  }

  lemma EmptyItemCounts(prefix: string, a: nat, b: nat)
    requires IsPrefix(prefix) && a <= INT_MAX && b <= INT_MAX
    ensures FlatCount(Bracketed(prefix, PrintNat(a) + (",," + PrintNat(b)))) == Some(3)
  {
    hide CountFrom, ScanPrefixedRange, PrintNat, IsPrefix;
    var head, last := prefix + "[", PrintNat(b) + "]";
    assert head[..|prefix|] == prefix;
    ListPieceCountsOnce(head, a, "");
    ListPieceCountsOnce("", b, "]");
    PlainCountsOnce("");
    assert PrintNat(a) + "" == PrintNat(a) && "" + last == last;
    assert Bracketed(prefix, PrintNat(a) + (",," + PrintNat(b))) == (head + PrintNat(a)) + (",," + last);
    CountSplits(head + PrintNat(a), ",," + last, 0);
    assert (",," + last)[1..] == "" + ("," + last);
    CountSplits("", "," + last, 1);
    assert ("," + last)[1..] == last == last + [];
    CountSplits(last, [], 2);
  }

  /** So a list with an empty item is counted one higher than it is filled. */
  lemma EmptyItemIsUndefined(prefix: string, a: nat, b: nat)
    requires IsPrefix(prefix) && a <= INT_MAX && b <= INT_MAX
    ensures var text := Bracketed(prefix, PrintNat(a) + (",," + PrintNat(b)));
            && FillFrom(text) == Filled([prefix + PrintNat(a), prefix + PrintNat(b)]) && FlatCount(text) == Some(3)
            && Parse(Some(text)) == Undefined
  {
    hide FlatCount, FillFrom, PrintNat, Bracketed, IsPrefix;
    EmptyItemFills(prefix, a, b);
    EmptyItemCounts(prefix, a, b);
    BracketedIsText(prefix, PrintNat(a) + (",," + PrintNat(b)));
    MismatchIsUndefined(Bracketed(prefix, PrintNat(a) + (",," + PrintNat(b))));
  }

  /** The flat scan sees no range behind a missing prefix. */
  lemma BareBracketCountsOnce(s: string)
    requires s != [] && s[0] == '['
    ensures ScanPrefixedRange(s) == None
  {
  }
}
