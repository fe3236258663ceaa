/** Splitting a string into fields at a separator character. */
module Fields {
  import opened Sequences
  import opened Text
  import opened StringParser

  function Split(s: string, separator: char): (r: seq<string>)
    ensures r != []
  {
    var stop := IndexOf(s, separator);
    [s[..stop]] + if stop == |s| then [] else Split(s[stop + 1..], separator)
  }

  function Occurrences(s: string, c: char): nat {
    if s == [] then 0 else (if s[0] == c then 1 else 0) + Occurrences(s[1..], c)
  }

  predicate AllLack(fields: seq<string>, c: char) {
    forall k | 0 <= k < |fields| :: Lacks(fields[k], c)
  }

  lemma OccurrencesSkip(s: string, c: char, k: nat)
    requires k <= IndexOf(s, c)
    ensures Occurrences(s, c) == Occurrences(s[k..], c)
    decreases k
  {
    if k == 0 {
      assert s[0..] == s;
    } else {
      OccurrencesSkip(s[1..], c, k - 1);
      assert s[1..][k - 1..] == s[k..];
    }
  }

  /** The counting pass allocates as many fields as the second pass cuts off. */
  lemma {:induction false} SplitCount(s: string, c: char)
    ensures |Split(s, c)| == Occurrences(s, c) + 1
    decreases |s|
  {
    var stop := IndexOf(s, c);
    OccurrencesSkip(s, c, stop);
    if stop == |s| {
    } else {
      SplitCount(s[stop + 1..], c);
      assert s[stop..][1..] == s[stop + 1..];
    }
  }

  lemma {:induction false} SplitLacks(s: string, c: char)
    ensures AllLack(Split(s, c), c)
    decreases |s|
  {
    var stop := IndexOf(s, c);
    if stop == |s| {
    } else {
      SplitLacks(s[stop + 1..], c);
    }
  }

  lemma CutAt(s: string, k: nat)
    requires k < |s|
    ensures s[..k] + [s[k]] + s[k + 1..] == s
  {
  }

  /** The separators put back give the string back. */
  lemma {:induction false} JoinSplit(s: string, c: char)
    ensures Join(Split(s, c), c) == s
    decreases |s|
  {
    hide IndexOf;
    var stop := IndexOf(s, c);
    if stop == |s| {
      assert s[..stop] == s;
      assert Split(s, c) == [s];
    } else {
      var rest := Split(s[stop + 1..], c);
      JoinSplit(s[stop + 1..], c);
      assert Split(s, c)[1..] == rest;
      CutAt(s, stop);
    }
  }

  /** Fields without the separator come back unchanged from the string they are joined to. */
  lemma {:induction false} SplitJoin(fields: seq<string>, c: char)
    requires fields != [] && AllLack(fields, c)
    ensures Split(Join(fields, c), c) == fields
  {
    var s := Join(fields, c);
    if |fields| == 1 {
      IndexOfIs(s, c, |s|);
      assert s[..|s|] == s && fields == [fields[0]] + [];
    } else {
      var rest := Join(fields[1..], c);
      assert s == fields[0] + [c] + rest;
      IndexOfIs(s, c, |fields[0]|);
      assert s[..|fields[0]|] == fields[0] && s[|fields[0]| + 1..] == rest;
      SplitJoin(fields[1..], c);
      assert fields == [fields[0]] + fields[1..];
    }
  }

  lemma SplitUnfolds(s: string, c: char)
    ensures var stop := IndexOf(s, c);
            Split(s, c) == [s[..stop]] + if stop == |s| then [] else Split(s[stop + 1..], c)
  {
    hide IndexOf;
  }

  lemma SplitStep(s: string, c: char, start: nat, stop: nat)
    requires start <= |s| && stop == start + IndexOf(s[start..], c)
    ensures start <= stop <= |s|
    ensures Split(s[start..], c) == [s[start..stop]] + if stop == |s| then [] else Split(s[stop + 1..], c)
  {
    hide IndexOf, Split;
    SplitUnfolds(s[start..], c);
    assert s[start..stop] == s[start..][..stop - start];
    assert stop < |s| ==> s[stop + 1..] == s[start..][stop - start + 1..];
  }

  /** The counting pass. */
  method CountFields(s: string, separator: char) returns (fieldCount: nat)
    ensures fieldCount == |Split(s, separator)|
  {
    hide Split;
    var ptr := 0;
    fieldCount := 1;
    while ptr < |s|
      invariant 0 <= ptr <= |s|
      invariant fieldCount + Occurrences(s[ptr..], separator) == Occurrences(s, separator) + 1
    {
      if s[ptr] == separator {
        fieldCount := fieldCount + 1;
      }
      assert s[ptr..][1..] == s[ptr + 1..];
      ptr := ptr + 1;
    }
    SplitCount(s, separator);
  }

  /** parser_initFields: None for a null pointer, otherwise the fields in an array that the counting
      pass sized. */
  method InitFields(text: Option<string>, separator: char) returns (r: Option<seq<string>>)
    ensures r == if text.None? then None else Some(Split(text.value, separator))
  {
    hide Split, IndexOf;
    if text.None? {
      return None;
    }
    var s := text.value;
    var fieldCount := CountFields(s, separator);
    var fields := new string[fieldCount];
    var i: nat, start: nat := 0, 0;
    while true
      invariant start <= |s| && i < fields.Length
      invariant fields[..i] + Split(s[start..], separator) == Split(s, separator)
      invariant fields.Length == |Split(s, separator)|
      decreases |s| - start
    {
      var stop := StrChrNul(s, start, separator);
      SplitStep(s, separator, start, stop);
      ConcatAssociates(fields[..i], [s[start..stop]], if stop == |s| then [] else Split(s[stop + 1..], separator));
      fields[i] := s[start..stop];
      i := i + 1;
      if stop == |s| {
        assert fields[..i] == Split(s, separator);
        break;
      }
      start := stop + 1;
    }
    assert fields[..] == fields[..i];
    r := Some(fields[..]);
  }
}
