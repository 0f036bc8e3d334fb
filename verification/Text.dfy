/** Strings as the browser handles them: white space, trimming, and splitting into lines. */
module Text {

  datatype Option<+T> = None | Some(value: T) {
    function GetOr(default: T): T {
      match this
      case None => default
      case Some(v) => v
    }
  }

  /** White space and line terminators of ECMAScript, the characters that `trim` removes. */
  predicate IsSpace(c: char) {
    var code := c as int;
    || 0x09 <= code <= 0x0D || code == 0x20 || code == 0xA0 || code == 0x1680
    || 0x2000 <= code <= 0x200A || code == 0x2028 || code == 0x2029
    || code == 0x202F || code == 0x205F || code == 0x3000 || code == 0xFEFF
  }

  /** One by one: tab to carriage return, the space and its relatives, the two separators, and the byte order mark. */
  lemma SpacesAre(c: char)
    ensures IsSpace(c) <==> c as int in {
              0x0009, 0x000A, 0x000B, 0x000C, 0x000D, 0x0020, 0x00A0, 0x1680, 0x2000, 0x2001, 0x2002, 0x2003, 0x2004,
              0x2005, 0x2006, 0x2007, 0x2008, 0x2009, 0x200A, 0x2028, 0x2029, 0x202F, 0x205F, 0x3000, 0xFEFF}
  {
  }

  function TrimStart(s: string): string {
    if s != [] && IsSpace(s[0]) then TrimStart(s[1..]) else s
  }

  function TrimEnd(s: string): string {
    if s != [] && IsSpace(s[|s| - 1]) then TrimEnd(s[..|s| - 1]) else s
  }

  function Trim(s: string): string {
    TrimEnd(TrimStart(s))
  }

  predicate AllSpace(s: string) {
    forall i :: 0 <= i < |s| ==> IsSpace(s[i])
  }

  lemma {:induction false} StartComesOff(before: string, rest: string)
    requires AllSpace(before)
    ensures TrimStart(before + rest) == TrimStart(rest)
  {
    if before != [] {
      assert (before + rest)[0] == before[0] && (before + rest)[1..] == before[1..] + rest;
      StartComesOff(before[1..], rest);
    } else {
      assert before + rest == rest;
    }
  }

  lemma {:induction false} EndComesOff(rest: string, after: string)
    requires AllSpace(after)
    ensures TrimEnd(rest + after) == TrimEnd(rest)
  {
    if after != [] {
      var n := |after| - 1;
      assert (rest + after)[|rest| + n] == after[n] && (rest + after)[..|rest| + n] == rest + after[..n];
      EndComesOff(rest, after[..n]);
    } else {
      assert rest + after == rest;
    }
  }

  /** Trimming takes all white space off both ends and nothing else. */
  lemma TrimTakesSpaceOff(before: string, core: string, after: string)
    requires AllSpace(before) && AllSpace(after)
    requires core != [] && !IsSpace(core[0]) && !IsSpace(core[|core| - 1])
    ensures Trim(before + core + after) == core
    ensures Trim(before) == ""
  {
    assert before + core + after == before + (core + after);
    StartComesOff(before, core + after);
    EndComesOff(core, after);
    StartComesOff(before, "");
    assert before + "" == before;
    assert (core + after)[0] == core[0];
  }

  lemma TrimKeepsTrimmed(s: string)
    requires s == [] || (!IsSpace(s[0]) && !IsSpace(s[|s| - 1]))
    ensures Trim(s) == s
  {
  }

  /** Position of the first `c` at or after `from`, or the length of the text when there is none. */
  function IndexOf(s: string, c: char, from: nat): (i: nat)
    requires from <= |s|
    ensures from <= i <= |s|
    ensures i < |s| ==> s[i] == c
    ensures forall k :: from <= k < i ==> s[k] != c
    decreases |s| - from
  {
    if from == |s| || s[from] == c then from else IndexOf(s, c, from + 1)
  }

  /** One past the last `c` among the first `limit` characters, or 0 when there is none. */
  function AfterLast(s: string, c: char, limit: nat): (i: nat)
    requires limit <= |s|
    ensures i <= limit
    ensures i > 0 ==> s[i - 1] == c
    ensures forall k :: i <= k < limit ==> s[k] != c
  {
    if limit == 0 || s[limit - 1] == c then limit else AfterLast(s, c, limit - 1)
  }

  function Split(s: string, c: char): (parts: seq<string>)
    ensures |parts| > 0
    decreases |s|
  {
    var i := IndexOf(s, c, 0);
    if i == |s| then [s] else [s[..i]] + Split(s[i + 1..], c)
  }

  function Join(parts: seq<string>, c: char): string {
    if parts == [] then [] else if |parts| == 1 then parts[0] else parts[0] + [c] + Join(parts[1..], c)
  }

  function Count(s: string, c: char): nat {
    if s == [] then 0 else (if s[0] == c then 1 else 0) + Count(s[1..], c)
  }

  lemma {:induction false} SplitParts(s: string, c: char)
    ensures forall k :: 0 <= k < |Split(s, c)| ==> c !in Split(s, c)[k]
    decreases |s|
  {
    var i := IndexOf(s, c, 0);
    if i < |s| {
      SplitParts(s[i + 1..], c);
    }
  }

  lemma {:induction false} JoinOfSplit(s: string, c: char)
    ensures Join(Split(s, c), c) == s
    decreases |s|
  {
    var i := IndexOf(s, c, 0);
    if i < |s| {
      JoinOfSplit(s[i + 1..], c);
      assert Split(s, c)[1..] == Split(s[i + 1..], c);
      assert s == s[..i] + [c] + s[i + 1..];
    }
  }

  lemma {:induction false} SplitOfJoin(parts: seq<string>, c: char)
    requires |parts| > 0
    requires forall k :: 0 <= k < |parts| ==> c !in parts[k]
    ensures Split(Join(parts, c), c) == parts
  {
    var s := Join(parts, c);
    var i := IndexOf(s, c, 0);
    assert forall k :: 0 <= k < |parts[0]| ==> s[k] == parts[0][k] && parts[0][k] in parts[0];
    if |parts| == 1 {
      assert i == |s|;
    } else {
      assert s[|parts[0]|] == c;
      assert i == |parts[0]|;
      assert s[..i] == parts[0];
      assert s[i + 1..] == Join(parts[1..], c);
      SplitOfJoin(parts[1..], c);
    }
  }

  lemma {:induction false} CountConcat(a: string, b: string, c: char)
    ensures Count(a + b, c) == Count(a, c) + Count(b, c)
  {
    if a == [] {
      assert a + b == b;
    } else {
      assert (a + b)[1..] == a[1..] + b;
      CountConcat(a[1..], b, c);
    }
  }

  lemma {:induction false} CountAbsent(s: string, c: char)
    requires c !in s
    ensures Count(s, c) == 0
  {
    if s != [] {
      CountAbsent(s[1..], c);
    }
  }

  /** A joined text has one separator fewer than it has parts. */
  lemma {:induction false} CountOfJoin(parts: seq<string>, c: char)
    requires |parts| > 0
    requires forall k :: 0 <= k < |parts| ==> c !in parts[k]
    ensures Count(Join(parts, c), c) == |parts| - 1
  {
    CountAbsent(parts[0], c);
    if |parts| > 1 {
      CountConcat(parts[0] + [c], Join(parts[1..], c), c);
      CountConcat(parts[0], [c], c);
      CountOfJoin(parts[1..], c);
    }
  }
}
