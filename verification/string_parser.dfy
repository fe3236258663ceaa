/** The endpoint-string parser. Two scanners go over the same string: a flat one that splits it at
    every comma and sizes the array, and a bracket-aware one that fills the array. */
module StringParser {
  import opened Sequences
  import opened Text
  import opened Decimal

  datatype Option<+T> = None | Some(value: T)

  /** Undefined stands for the executions that C does not define: using a variable that scanf left
      unset, counting past INT_MAX, writing past the array, or handing out slots never written. */
  datatype ParseResult = Parsed(strings: seq<string>) | Rejected | Undefined

  // ----- the flat scan

  /** The two numbers of "[%d-%d]". */
  function ScanRange(s: string): (r: Option<(int, int)>)
    requires s != [] && s[0] == '['
    ensures r.Some? ==> r.value.1 <= INT_MAX
  {
    match ScanInt(s[1..])
    case NoMatch => None
    case Match(lo, rest) =>
      if rest == [] || rest[0] != '-' then None
      else match ScanInt(rest[1..])
        case NoMatch => None
        case Match(hi, _) => Some((lo, hi))
  }

  /** The two numbers of "%*[^[][%d-%d]", when both are there. */
  function ScanPrefixedRange(s: string): Option<(int, int)> {
    var open := IndexOf(s, '[');
    if open == 0 || open == |s| then None else ScanRange(s[open..])
  }

  /** The count after one more piece; none where the int overflows. */
  function AddPiece(count: int, piece: string): Option<int> {
    match ScanPrefixedRange(piece)
    case None => if IsInt(count + 1) then Some(count + 1) else None
    case Some((lo, hi)) =>
      if IsInt(hi - lo) && IsInt(count + (hi - lo)) && IsInt(count + (hi - lo) + 1) then Some(count + (hi - lo) + 1)
      else None
  }

  function CountFrom(s: string, count: int): Option<int> {
    var stop := IndexOf(s, ',');
    match AddPiece(count, s[..stop])
    case None => None
    case Some(n) => if stop == |s| then Some(n) else CountFrom(s[stop + 1..], n)
  }

  function FlatCount(s: string): Option<int> {
    CountFrom(s, 0)
  }

  lemma CountFromStep(s: string, start: nat, stop: nat, count: int)
    requires start <= |s| && stop == start + IndexOf(s[start..], ',')
    ensures start <= stop <= |s|
    ensures CountFrom(s[start..], count) ==
            match AddPiece(count, s[start..stop])
            case None => None
            case Some(n) => if stop == |s| then Some(n) else CountFrom(s[stop + 1..], n)
  {
    hide AddPiece;
    assert s[start..stop] == s[start..][..stop - start];
    assert stop < |s| ==> s[stop + 1..] == s[start..][stop - start + 1..];
  }

  method GetConnectionCount(s: string) returns (strCount: Option<int>)
    ensures strCount == FlatCount(s)
  {
    hide CountFrom, ScanPrefixedRange;
    var start, count := 0, 0;
    assert s[0..] == s;
    while true
      invariant 0 <= start <= |s|
      invariant CountFrom(s[start..], count) == FlatCount(s)
      decreases |s| - start
    {
      var stop := StrChrNul(s, start, ',');
      CountFromStep(s, start, stop, count);
      var ret := ScanPrefixedRange(s[start..stop]);
      if ret.Some? {
        var (idFrom, idTo) := ret.value;
        if !IsInt(idTo - idFrom) || !IsInt(count + (idTo - idFrom)) {
          return None;
        }
        count := count + (idTo - idFrom);
      }
      if !IsInt(count + 1) {
        return None;
      }
      count := count + 1;
      if stop == |s| {
        return Some(count);
      }
      start := stop + 1;
    }
  }

  // ----- the bracket-aware scan

  datatype Fill = Filled(strings: seq<string>) | Unfilled

  function Append(done: seq<string>, f: Fill): Fill {
    match f
    case Filled(more) => Filled(done + more)
    case Unfilled => Unfilled
  }

  function RangeStrings(prefix: string, lo: int, hi: int): (r: seq<string>)
    decreases hi - lo
  {
    if lo > hi then [] else [prefix + PrintInt(lo)] + RangeStrings(prefix, lo + 1, hi)
  }

  function ExpandRange(prefix: string, lo: int, hi: int): Fill {
    if lo <= hi == INT_MAX then Unfilled else Filled(RangeStrings(prefix, lo, hi))
  }

  function CommaRun(s: string): (n: nat)
    ensures n <= |s| && (n < |s| ==> s[n] != ',')
  {
    if s == [] || s[0] != ',' then 0 else 1 + CommaRun(s[1..])
  }

  /** strtok(s, ","): the next token and what is left, if there is a token. */
  function NextToken(s: string): (r: Option<(string, string)>)
    ensures r.Some? ==> |r.value.1| < |s| && |r.value.0| > 0
  {
    var t := s[CommaRun(s)..];
    var stop := IndexOf(t, ',');
    if t == [] then None else Some((t[..stop], if stop == |t| then [] else t[stop + 1..]))
  }

  function TokenStrings(prefix: string, s: string): (r: seq<string>)
    decreases |s|
  {
    match NextToken(s)
    case None => []
    case Some((tok, rest)) => [prefix + PrintInt(Atoi(tok))] + TokenStrings(prefix, rest)
  }

  /** The strings that one candidate adds to the array. */
  function Expand(candidate: string): Fill {
    var open := IndexOf(candidate, '[');
    if open == |candidate| then Filled([candidate])
    else if open == 0 then Unfilled
    else
      var prefix, range := candidate[..open], candidate[open..];
      if !Lacks(range, '-') then
        match ScanRange(range)
        case None => Unfilled
        case Some((lo, hi)) => ExpandRange(prefix, lo, hi)
      else if !Lacks(range, ',') then Filled(TokenStrings(prefix, range[1..]))
      else
        match ScanInt(range[1..])
        case NoMatch => Unfilled
        case Match(id, _) => Filled([prefix + PrintInt(id)])
  }

  /** From a comma, on to the first comma that is not in front of the closing bracket. */
  function PastBracket(s: string, stop: nat, close: nat): (r: nat)
    requires stop <= |s| && close <= |s|
    ensures r <= |s|
    decreases |s| - stop
  {
    if close < |s| && close > stop then PastBracket(s, stop + 1 + IndexOf(s[stop + 1..], ','), close) else stop
  }

  function CandidateLength(s: string): (n: nat)
    ensures n <= |s|
  {
    var comma := IndexOf(s, ',');
    if IndexOf(s, '[') < comma then PastBracket(s, comma, IndexOf(s, ']')) else comma
  }

  function FillFrom(s: string): Fill {
    var n := CandidateLength(s);
    match Expand(s[..n])
    case Unfilled => Unfilled
    case Filled(xs) => if n == |s| then Filled(xs) else Append(xs, FillFrom(s[n + 1..]))
  }

  /** What parser_initStrArray makes of its argument, if there is memory for any array. */
  function Parse(text: Option<string>): ParseResult {
    if text.None? || text.value == [] then Rejected
    else match FillFrom(text.value)
      case Filled(xs) => if FlatCount(text.value) == Some(|xs|) then Parsed(xs) else Undefined
      case Unfilled => Undefined
  }

  /** The slots that malloc is asked for: a count below zero wraps around. */
  function ArraySize(count: int): nat {
    count % 0x1_0000_0000
  }

  /** The same where malloc grants an array of at most so many slots. */
  function ParseWithin(text: Option<string>, granted: nat): ParseResult {
    if text.None? || text.value == [] then Rejected
    else match FlatCount(text.value)
      case None => Undefined
      case Some(count) => if ArraySize(count) > granted then Rejected else Parse(text)
  }

  // ----- filling the array

  /** One more slot. */
  method Store(slots: array<string>, used: nat, s: string) returns (now: nat)
    requires used < slots.Length
    modifies slots
    ensures now == used + 1 && slots[..now] == old(slots[..used]) + [s]
  {
    slots[used] := s;
    now := used + 1;
  }

  method WriteRange(slots: array<string>, used: nat, prefix: string, idFrom: int, idTo: int) returns (now: nat, ok: bool)
    requires used <= slots.Length && idTo <= INT_MAX
    modifies slots
    ensures var f := ExpandRange(prefix, idFrom, idTo);
            && (ok <==> f.Filled? && used + |f.strings| <= slots.Length)
            && (ok ==> now == used + |f.strings| && slots[..now] == old(slots[..used]) + f.strings)
  {
    hide PrintInt, IsSplit;
    ghost var all := slots[..used] + RangeStrings(prefix, idFrom, idTo);
    SplitAtStart(slots[..used], RangeStrings(prefix, idFrom, idTo));
    var i := idFrom;
    now, ok := used, true;
    while i <= idTo
      invariant used <= now <= slots.Length
      invariant IsSplit(all, slots[..now], RangeStrings(prefix, i, idTo))
      invariant i <= idTo || i == idFrom || idTo < INT_MAX
      decreases idTo - i
    {
      SplitIs(all, slots[..now], RangeStrings(prefix, i, idTo));
      if now == slots.Length || i == INT_MAX {
        return now, false;
      }
      SplitMoves(all, slots[..now], [prefix + PrintInt(i)], RangeStrings(prefix, i + 1, idTo));
      now := Store(slots, now, prefix + PrintInt(i));
      i := i + 1;
    }
    SplitIs(all, slots[..now], RangeStrings(prefix, i, idTo));
  }

  function PendingTokens(prefix: string, tok: Option<(string, string)>): seq<string> {
    match tok
    case None => []
    case Some((t, rest)) => [prefix + PrintInt(Atoi(t))] + TokenStrings(prefix, rest)
  }

  lemma TokenStep(prefix: string, list: string)
    ensures TokenStrings(prefix, list) == PendingTokens(prefix, NextToken(list))
  {
    hide NextToken, PrintInt, Atoi;
  }

  method WriteTokens(slots: array<string>, used: nat, prefix: string, list: string) returns (now: nat, ok: bool)
    requires used <= slots.Length
    modifies slots
    ensures var xs := TokenStrings(prefix, list);
            && (ok <==> used + |xs| <= slots.Length)
            && (ok ==> now == used + |xs| && slots[..now] == old(slots[..used]) + xs)
  {
    hide PrintInt, Atoi, NextToken, TokenStrings, IsSplit;
    ghost var all := slots[..used] + TokenStrings(prefix, list);
    SplitAtStart(slots[..used], TokenStrings(prefix, list));
    var tok := NextToken(list);
    TokenStep(prefix, list);
    now, ok := used, true;
    while tok.Some?
      invariant used <= now <= slots.Length
      invariant IsSplit(all, slots[..now], PendingTokens(prefix, tok))
      decreases if tok.Some? then |tok.value.1| + 1 else 0
    {
      var (t, rest) := tok.value;
      SplitIs(all, slots[..now], PendingTokens(prefix, tok));
      if now == slots.Length {
        return now, false;
      }
      SplitMoves(all, slots[..now], [prefix + PrintInt(Atoi(t))], TokenStrings(prefix, rest));
      now := Store(slots, now, prefix + PrintInt(Atoi(t)));
      tok := NextToken(rest);
      TokenStep(prefix, rest);
    }
    SplitIs(all, slots[..now], []);
  }

  method WriteOne(slots: array<string>, used: nat, s: string) returns (now: nat, ok: bool)
    requires used <= slots.Length
    modifies slots
    ensures ok <==> used + 1 <= slots.Length
    ensures ok ==> now == used + 1 && slots[..now] == old(slots[..used]) + [s]
  {
    now, ok := used, used < slots.Length;
    if ok {
      now := Store(slots, used, s);
    }
  }

  lemma PastBracketStep(s: string, start: nat, stop: nat, close: nat)
    requires start <= stop < |s| && stop < close < |s|
    ensures start + PastBracket(s[start..], stop - start, close - start)
            == start + PastBracket(s[start..], stop + 1 - start + IndexOf(s[stop + 1..], ','), close - start)
  {
    hide IndexOf;
    assert s[stop + 1..] == s[start..][stop - start + 1..];
  }

  lemma PastBracketEnds(s: string, stop: nat, close: nat)
    requires stop <= |s| && close <= |s|
    requires close == |s| || close <= stop
    ensures PastBracket(s, stop, close) == stop
  {
  }

  /** The strchrnul and strchr calls that delimit the candidate at start. */
  method FindCandidateEnd(s: string, start: nat) returns (stop: nat)
    requires start <= |s|
    ensures stop == start + CandidateLength(s[start..])
  {
    hide IndexOf, PastBracket;
    stop := StrChrNul(s, start, ',');
    var open := start + IndexOf(s[start..], '[');
    if open < |s| && stop > open {
      var close := start + IndexOf(s[start..], ']');
      while close < |s| && close > stop
        invariant start <= stop <= |s|
        invariant start + PastBracket(s[start..], stop - start, close - start) == start + CandidateLength(s[start..])
        decreases |s| - stop
      {
        PastBracketStep(s, start, stop, close);
        stop := StrChrNul(s, stop + 1, ',');
      }
      PastBracketEnds(s[start..], stop - start, close - start);
    }
  }

  method WriteCandidate(slots: array<string>, used: nat, candidate: string) returns (now: nat, ok: bool)
    requires used <= slots.Length
    modifies slots
    ensures var f := Expand(candidate);
            && (ok <==> f.Filled? && used + |f.strings| <= slots.Length)
            && (ok ==> now == used + |f.strings| && slots[..now] == old(slots[..used]) + f.strings)
  {
    hide IndexOf, ScanInt, ScanRange, PrintInt, ExpandRange, TokenStrings;
    now, ok := used, false;
    var rangeStart := IndexOf(candidate, '[');
    if rangeStart == |candidate| {
      now, ok := WriteOne(slots, used, candidate);
      return;
    }
    if rangeStart == 0 {
      return;                                  // sscanf leaves idStr unset
    }
    var idStr, range := candidate[..rangeStart], candidate[rangeStart..];
    if !Lacks(range, '-') {
      var ret := ScanRange(range);
      if ret.Some? {
        now, ok := WriteRange(slots, used, idStr, ret.value.0, ret.value.1);
      }
    } else if !Lacks(range, ',') {
      now, ok := WriteTokens(slots, used, idStr, range[1..]);
    } else {
      var ret := ScanInt(range[1..]);
      if ret.Match? {
        now, ok := WriteOne(slots, used, idStr + PrintInt(ret.value));
      }
    }
  }

  lemma FillFromStep(s: string, start: nat, stop: nat)
    requires start <= |s| && stop == start + CandidateLength(s[start..])
    ensures start <= stop <= |s|
    ensures FillFrom(s[start..]) ==
            match Expand(s[start..stop])
            case Unfilled => Unfilled
            case Filled(xs) => if stop == |s| then Filled(xs) else Append(xs, FillFrom(s[stop + 1..]))
  {
    hide Expand, CandidateLength;
    assert s[start..stop] == s[start..][..stop - start];
    assert stop < |s| ==> s[stop + 1..] == s[start..][stop - start + 1..];
  }

  lemma AppendTwice(done: seq<string>, xs: seq<string>, f: Fill)
    ensures Append(done, Append(xs, f)) == Append(done + xs, f)
  {
    if f.Filled? {
      assert (done + xs) + f.strings == done + (xs + f.strings);
    }
  }

  /** How one more candidate changes what is written and what is still to come. */
  lemma CandidateWritten(s: string, start: nat, stop: nat, done: seq<string>)
    requires start <= |s| && stop == start + CandidateLength(s[start..])
    requires Append(done, FillFrom(s[start..])) == FillFrom(s)
    ensures start <= stop <= |s|
    ensures Expand(s[start..stop]).Unfilled? ==> FillFrom(s).Unfilled?
    ensures Expand(s[start..stop]).Filled? ==>
              var now := done + Expand(s[start..stop]).strings;
              && FillFrom(s) == (if stop == |s| then Filled(now) else Append(now, FillFrom(s[stop + 1..])))
              && (FillFrom(s).Filled? ==> |FillFrom(s).strings| >= |now|)
  {
    FillFromStep(s, start, stop);
    hide Expand, CandidateLength, FillFrom;
    if Expand(s[start..stop]).Filled? && stop < |s| {
      AppendTwice(done, Expand(s[start..stop]).strings, FillFrom(s[stop + 1..]));
    }
  }

  /** parser_initStrArray. granted is the largest array that malloc grants, in slots. */
  method InitStrArray(text: Option<string>, granted: nat) returns (r: ParseResult)
    ensures r == ParseWithin(text, granted)
  {
    hide FillFrom, FlatCount, Expand, CandidateLength;
    if text.None? || text.value == [] {
      return Rejected;
    }
    var s := text.value;
    var strCount := GetConnectionCount(s);
    if strCount.None? {
      return Undefined;
    }
    if ArraySize(strCount.value) > granted {
      return Rejected;
    }
    if strCount.value < 0 {
      return Undefined;                        // more slots than can ever be filled
    }
    var slots := new string[strCount.value];
    var strCurrent: nat, start: nat := 0, 0;
    assert s[0..] == s;
    assert FillFrom(s).Filled? ==> [] + FillFrom(s).strings == FillFrom(s).strings;
    while true
      invariant 0 <= start <= |s| && strCurrent <= slots.Length
      invariant Append(slots[..strCurrent], FillFrom(s[start..])) == FillFrom(s)
      decreases |s| - start
    {
      var stop := FindCandidateEnd(s, start);
      CandidateWritten(s, start, stop, slots[..strCurrent]);
      var now, ok := WriteCandidate(slots, strCurrent, s[start..stop]);
      if !ok {
        return Undefined;
      }
      strCurrent := now;
      if stop == |s| {
        break;
      }
      start := stop + 1;
    }
    r := if strCurrent == slots.Length then Parsed(slots[..]) else Undefined;
  }
}
