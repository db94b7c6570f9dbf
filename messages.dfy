/**
 * The mini-parsers that pull a name or a label out of a linter's free-form
 * message, with Kotlin's `lastIndexOf`, `indexOf`, `substring` and `trim`
 * written out.
 */
module Messages {
  import opened Wrappers

  /** `s.lastIndexOf(c)`: the last position of `c`, or -1 when there is none. */
  function LastIndexOf(s: string, c: char): (i: int)
    ensures -1 <= i < |s|
    ensures i == -1 <==> c !in s
    ensures i >= 0 ==> s[i] == c && forall j :: i < j < |s| ==> s[j] != c
  {
    if |s| == 0 then -1
    else if s[|s| - 1] == c then |s| - 1
    else LastIndexOf(s[..|s| - 1], c)
  }

  /** `s.indexOf(c)`: the first position of `c`, or -1 when there is none. */
  function IndexOf(s: string, c: char): (i: int)
    ensures -1 <= i < |s|
    ensures i == -1 <==> c !in s
    ensures i >= 0 ==> s[i] == c && c !in s[..i]
  {
    if |s| == 0 then -1
    else if s[0] == c then 0
    else
      var j := IndexOf(s[1..], c);
      if j == -1 then -1 else j + 1
  }

  /** How many copies of `c` the string starts with. */
  function LeadingCount(s: string, c: char): (n: nat)
    ensures n <= |s|
    ensures forall i :: 0 <= i < n ==> s[i] == c
    ensures n == |s| || s[n] != c
  {
    if |s| > 0 && s[0] == c then 1 + LeadingCount(s[1..], c) else 0
  }

  /** How many copies of `c` the string ends with. */
  function TrailingCount(s: string, c: char): (n: nat)
    ensures n <= |s|
    ensures forall i :: |s| - n <= i < |s| ==> s[i] == c
    ensures n == |s| || s[|s| - 1 - n] != c
  {
    if |s| > 0 && s[|s| - 1] == c then 1 + TrailingCount(s[..|s| - 1], c) else 0
  }

  /** `s.trim(c)`: `s` without the copies of `c` it starts and ends with. */
  function Trim(s: string, c: char): (r: string)
    ensures LeadingCount(s, c) + |r| <= |s|
    ensures r == s[LeadingCount(s, c)..LeadingCount(s, c) + |r|]
    ensures forall i :: LeadingCount(s, c) + |r| <= i < |s| ==> s[i] == c
    ensures r == [] || (r[0] != c && r[|r| - 1] != c)
  {
    var t := s[LeadingCount(s, c)..];
    t[..|t| - TrailingCount(t, c)]
  }

  /**
   * The name a message mentions last: the text after its last space (the
   * whole message when it has none), with backticks trimmed from both ends.
   * IneffAssign reads the variable and Interfacer the suggested type this way.
   */
  function QuotedName(message: string): (r: string)
    ensures ' ' !in r
    ensures r == [] || (r[0] != '`' && r[|r| - 1] != '`')
    ensures ' ' !in message ==> r == Trim(message, '`')
    ensures forall k :: 0 <= k < |message| && message[k] == ' ' && ' ' !in message[k + 1..] ==>
      r == Trim(message[k + 1..], '`')
  {
    var name := message[LastIndexOf(message, ' ') + 1..];
    assert ' ' !in name;
    TrimKeepsAbsent(name, '`', ' ');
    Trim(name, '`')
  }

  /** Trimming adds no character. */
  lemma TrimKeepsAbsent(s: string, c: char, d: char)
    requires d !in s
    ensures d !in Trim(s, c)
  {
    var r := Trim(s, c);
    var p := LeadingCount(s, c);
    forall k | 0 <= k < |r| ensures r[k] != d {
      assert r[k] == s[p + k];
    }
  }

  /**
   * The case label the exhaustive linter's message carries: the text from two
   * characters after the first `:` (`substring(indexOf(':') + 2)`). `None`
   * where Kotlin's `substring` would throw, because the start is past the end.
   */
  function CaseLabel(message: string): (r: Option<string>)
    ensures r.None? <==> IndexOf(message, ':') + 2 > |message|
    ensures r.Some? && ':' in message ==>
      IndexOf(message, ':') + 2 + |r.value| == |message| && message[IndexOf(message, ':')]== ':'
      && r.value == message[|message| - |r.value|..]
    ensures ':' !in message && |message| >= 1 ==> r == Some(message[1..])
  {
    var start := IndexOf(message, ':') + 2;
    if start <= |message| then Some(message[start..]) else None
  }

  /** The new package name TestPackage proposes. */
  function TestPackageName(name: string): (r: string)
    ensures |r| == |name| + 5 && r[..|name|] == name && r[|name|..] == "_test"
  {
    name + "_test"
  }

  /** The new function name GoPrintfFuncName proposes. */
  function PrintfFuncName(name: string): (r: string)
    ensures |r| == |name| + 1 && r[..|name|] == name && r[|name|] == 'f'
  {
    name + "f"
  }

  /** Trimming does nothing to a name that neither starts nor ends with `c`,
      and removes exactly one `c` on each side of such a name. */
  lemma {:induction false} TrimQuoted(x: string, c: char)
    requires x != [] && x[0] != c && x[|x| - 1] != c
    ensures Trim(x, c) == x
    ensures Trim([c] + x + [c], c) == x
  {
    var q := [c] + x + [c];
    assert LeadingCount(x, c) == 0;
    assert q[1..] == x + [c];
    assert LeadingCount(q, c) == 1;
    var t := q[1..];
    assert t[..|t| - 1] == x;
    assert TrailingCount(t[..|t| - 1], c) == 0;
    assert TrailingCount(t, c) == 1;
    assert TrailingCount(x, c) == 0;
  }

  /** A message that ends in a space and a backtick-quoted name yields that name. */
  lemma {:induction false} QuotedNameOfQuoted(prefix: string, x: string)
    requires x != [] && ' ' !in x && x[0] != '`' && x[|x| - 1] != '`'
    ensures QuotedName(prefix + " `" + x + "`") == x
  {
    var m := prefix + " `" + x + "`";
    assert m[|prefix|] == ' ';
    assert m[|prefix| + 1..] == ['`'] + x + ['`'];
    LastSpaceIsBeforeSuffix(m, |prefix|);
    TrimQuoted(x, '`');
  }

  /** A message that ends in a space and a bare name yields that name. */
  lemma {:induction false} QuotedNameOfBare(prefix: string, x: string)
    requires x != [] && ' ' !in x && x[0] != '`' && x[|x| - 1] != '`'
    ensures QuotedName(prefix + " " + x) == x
  {
    var m := prefix + " " + x;
    assert m[|prefix|] == ' ';
    assert m[|prefix| + 1..] == x;
    LastSpaceIsBeforeSuffix(m, |prefix|);
    TrimQuoted(x, '`');
  }

  /** The last space of a string is the one after which no space follows. */
  lemma LastSpaceIsBeforeSuffix(m: string, k: int)
    requires 0 <= k < |m| && m[k] == ' ' && ' ' !in m[k + 1..]
    ensures LastIndexOf(m, ' ') == k
  {
    assert forall j :: k < j < |m| ==> m[j] == m[k + 1..][j - k - 1];
  }

  /** A message whose first colon is followed by a space and a label yields that label. */
  lemma {:induction false} CaseLabelOf(prefix: string, caseLabel: string)
    requires ':' !in prefix
    ensures CaseLabel(prefix + ": " + caseLabel) == Some(caseLabel)
  {
    var m := prefix + ": " + caseLabel;
    assert m[|prefix|] == ':';
    FirstColonAfterPrefix(m, |prefix|);
    assert m[|prefix| + 2..] == caseLabel;
  }

  /** The first colon of a string is the one before which no colon occurs. */
  lemma FirstColonAfterPrefix(m: string, k: int)
    requires 0 <= k < |m| && m[k] == ':' && ':' !in m[..k]
    ensures IndexOf(m, ':') == k
  {
  }
}
