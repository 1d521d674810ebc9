/** Decimal printing, joining and splitting of strings. */
module Text {
  import opened Common

  function Digit(n: nat): char
    requires n < 10
  {
    '0' + n as char
  }

  function DigitValue(c: char): nat
    requires '0' <= c <= '9'
  {
    (c - '0') as nat
  }

  predicate IsDigit(c: char) {
    '0' <= c <= '9'
  }

  // `Display` of an unsigned integer.
  function Decimal(n: nat): (s: string)
    ensures s != ""
    ensures forall i | 0 <= i < |s| :: IsDigit(s[i])
  {
    if n < 10 then [Digit(n)] else Decimal(n / 10) + [Digit(n % 10)]
  }

  // The number a string of digits denotes.
  function ParseDecimal(s: string): Option<nat> {
    if s == "" then None
    else if !IsDigit(s[|s| - 1]) then None
    else if |s| == 1 then Some(DigitValue(s[0]))
    else match ParseDecimal(s[..|s| - 1])
         case None => None
         case Some(n) => Some(10 * n + DigitValue(s[|s| - 1]))
  }

  lemma {:induction false} ParsePrinted(n: nat)
    ensures ParseDecimal(Decimal(n)) == Some(n)
  {
    if n >= 10 {
      ParsePrinted(n / 10);
      var s := Decimal(n);
      assert s[..|s| - 1] == Decimal(n / 10);
      assert DigitValue(s[|s| - 1]) == n % 10;
    }
  }

  lemma DecimalInjective(m: nat, n: nat)
    requires Decimal(m) == Decimal(n)
    ensures m == n
  {
    ParsePrinted(m);
    ParsePrinted(n);
  }

  function Join(parts: seq<string>, separator: string): string {
    if parts == [] then ""
    else if |parts| == 1 then parts[0]
    else parts[0] + separator + Join(parts[1..], separator)
  }

  // The first position of `c`, or the length of `s`.
  function IndexOf(s: string, c: char): (i: nat)
    ensures i <= |s|
    ensures forall k | 0 <= k < i :: s[k] != c
    ensures i < |s| ==> s[i] == c
  {
    if s == "" || s[0] == c then 0 else 1 + IndexOf(s[1..], c)
  }

  function Split(s: string, c: char): (parts: seq<string>)
    ensures parts != []
    decreases |s|
  {
    var i := IndexOf(s, c);
    if i == |s| then [s] else [s[..i]] + Split(s[i + 1..], c)
  }

  lemma {:induction false} SplitJoined(parts: seq<string>, c: char)
    requires parts != []
    requires forall i | 0 <= i < |parts| :: c !in parts[i]
    ensures Split(Join(parts, [c]), c) == parts
  {
    var s := Join(parts, [c]);
    if |parts| == 1 {
      assert s == parts[0];
      assert IndexOf(s, c) == |s|;
      assert parts == [s];
    } else {
      var rest := Join(parts[1..], [c]);
      SplitAfter(parts[0], c, rest);
      SplitJoined(parts[1..], c);
      assert parts == [parts[0]] + parts[1..];
    }
  }

  lemma SplitAfter(head: string, c: char, rest: string)
    requires c !in head
    ensures Split(head + [c] + rest, c) == [head] + Split(rest, c)
  {
    var s := head + [c] + rest;
    IndexAfter(head, c, rest);
    assert s[..|head|] == head && s[|head| + 1..] == rest;
  }

  lemma IndexAfter(head: string, c: char, rest: string)
    requires c !in head
    ensures IndexOf(head + [c] + rest, c) == |head|
  {
    var s := head + [c] + rest;
    assert s[|head|] == c;
    assert forall k | 0 <= k < |head| :: s[k] == head[k];
  }

  // The last position of `c`, if there is one.
  function LastIndexOf(s: string, c: char): (r: Option<nat>)
    ensures r.Some? ==> r.value < |s| && s[r.value] == c && forall k | r.value < k < |s| :: s[k] != c
    ensures r.None? ==> forall k | 0 <= k < |s| :: s[k] != c
  {
    if s == "" then None
    else if s[|s| - 1] == c then Some(|s| - 1)
    else LastIndexOf(s[..|s| - 1], c)
  }

  lemma {:induction false} LastIndexBefore(head: string, c: char, tail: string)
    requires c !in tail
    ensures LastIndexOf(head + [c] + tail, c) == Some(|head|)
    decreases |tail|
  {
    if tail == "" {
      assert head + [c] + tail == head + [c];
    } else {
      var front := tail[..|tail| - 1];
      assert head + [c] + tail == (head + [c] + front) + [tail[|tail| - 1]];
      assert c !in front && tail[|tail| - 1] != c;
      LastIndexOfSnoc(head + [c] + front, tail[|tail| - 1], c);
      LastIndexBefore(head, c, front);
    }
  }

  lemma LastIndexOfSnoc(front: string, last: char, c: char)
    requires last != c
    ensures LastIndexOf(front + [last], c) == LastIndexOf(front, c)
  {
    assert (front + [last])[..|front|] == front;
  }

  function Count(s: string, c: char): nat {
    if s == "" then 0 else (if s[0] == c then 1 else 0) + Count(s[1..], c)
  }

  lemma {:induction false} CountAppend(a: string, b: string, c: char)
    ensures Count(a + b, c) == Count(a, c) + Count(b, c)
  {
    if a == "" {
      assert a + b == b;
    } else {
      assert (a + b)[1..] == a[1..] + b;
      CountAppend(a[1..], b, c);
    }
  }

  lemma {:induction false} CountZero(s: string, c: char)
    ensures Count(s, c) == 0 <==> c !in s
  {
    if s != "" {
      CountZero(s[1..], c);
      assert s == [s[0]] + s[1..];
    }
  }

  lemma {:induction false} SplitCount(s: string, c: char)
    ensures |Split(s, c)| == 1 + Count(s, c)
    decreases |s|
  {
    var i := IndexOf(s, c);
    if i == |s| {
      CountZero(s, c);
    } else {
      SplitCount(s[i + 1..], c);
      CountZero(s[..i], c);
      assert s == s[..i] + ([c] + s[i + 1..]);
      CountAppend(s[..i], [c] + s[i + 1..], c);
      CountFirst(c, s[i + 1..]);
    }
  }

  lemma CountFirst(c: char, rest: string)
    ensures Count([c] + rest, c) == 1 + Count(rest, c)
  {
    assert ([c] + rest)[1..] == rest;
  }

  function CountAll(parts: seq<string>, c: char): nat {
    if parts == [] then 0 else Count(parts[0], c) + CountAll(parts[1..], c)
  }

  lemma {:induction false} CountJoined(parts: seq<string>, c: char)
    requires parts != []
    ensures Count(Join(parts, [c]), c) == |parts| - 1 + CountAll(parts, c)
  {
    if |parts| > 1 {
      var rest := Join(parts[1..], [c]);
      CountJoined(parts[1..], c);
      assert Join(parts, [c]) == parts[0] + ([c] + rest);
      CountAppend(parts[0], [c] + rest, c);
      CountFirst(c, rest);
    }
  }

  lemma SamePrefix(p: string, a: string, b: string)
    requires p + a == p + b
    ensures a == b
  {
    assert a == (p + a)[|p|..] && b == (p + b)[|p|..];
  }

  lemma SameFront(a: string, x: string, b: string, y: string)
    requires |a| == |b| && a + x == b + y
    ensures a == b && x == y
  {
    assert a == (a + x)[..|a|] && b == (b + y)[..|b|];
    assert x == (a + x)[|a|..] && y == (b + y)[|b|..];
  }

  lemma SameSuffix(a: string, b: string, suffix: string)
    requires a + suffix == b + suffix
    ensures a == b
  {
    assert |a| == |b|;
    assert a == (a + suffix)[..|a|] && b == (b + suffix)[..|b|];
  }

  // A separator that occurs in neither head splits the string in one way.
  lemma SameHead(head: string, rest: string, head': string, rest': string, c: char)
    requires c !in head && c !in head'
    requires head + [c] + rest == head' + [c] + rest'
    ensures head == head' && rest == rest'
  {
    var s := head + [c] + rest;
    IndexAfter(head, c, rest);
    IndexAfter(head', c, rest');
    assert head == s[..|head|] && head' == s[..|head'|];
    assert rest == s[|head| + 1..] && rest' == s[|head'| + 1..];
  }

  // The same, for the last separator.
  lemma SameTail(front: string, tail: string, front': string, tail': string, c: char)
    requires c !in tail && c !in tail'
    requires front + [c] + tail == front' + [c] + tail'
    ensures front == front' && tail == tail'
  {
    var s := front + [c] + tail;
    LastIndexBefore(front, c, tail);
    LastIndexBefore(front', c, tail');
    assert front == s[..|front|] && front' == s[..|front'|];
    assert tail == s[|front| + 1..] && tail' == s[|front'| + 1..];
  }
}
