/**
 * String, container and integer helpers of ulib (utility.hpp): token counting and
 * splitting, joining, case conversion, trimming, the keys and values of an ordered
 * map, and the rounded-up integer division used to size lane arrays.
 */
module Utility {
  import opened Wrappers

  // ---------------------------------------------------------------------------
  // ceil (utility.hpp:178-180)

  function Abs(a: int): nat
  {
    if a < 0 then -a else a
  }

  /** Integer division as C++ performs it: the quotient is truncated toward zero. */
  function TruncDiv(a: int, b: int): int
    requires b != 0
  {
    if (a < 0) == (b < 0) then Abs(a) / Abs(b) else -(Abs(a) / Abs(b))
  }

  /**
   * ulib::ceil, (a + b - 1) / b in C++ integer arithmetic.  For a non-negative
   * numerator and a positive divisor it is the least multiple count that covers `a`.
   */
  function Ceil(a: int, b: int): (r: int)
    requires b != 0
    ensures a >= 0 && b > 0 ==> r >= 0 && r * b >= a && (r - 1) * b < a
  {
    var q := TruncDiv(a + b - 1, b);
    assert a >= 0 && b > 0 ==> q == (a + b - 1) / b && q * b <= a + b - 1 < q * b + b;
    q
  }

  // ---------------------------------------------------------------------------
  // numTokens and split (utility.hpp:46-78)

  /**
   * The non-empty tokens that repeated std::getline calls produce when reading `s`
   * at `delim`, given the characters `cur` of a token already read.
   */
  function TokensFrom(s: string, delim: char, cur: string): seq<string>
    decreases |s|
  {
    if s == [] then
      (if cur == [] then [] else [cur])
    else if s[0] == delim then
      (if cur == [] then [] else [cur]) + TokensFrom(s[1..], delim, [])
    else
      TokensFrom(s[1..], delim, cur + [s[0]])
  }

  /** The non-empty pieces of `s` between occurrences of `delim`, in order. */
  function Tokens(s: string, delim: char): seq<string>
  {
    TokensFrom(s, delim, [])
  }

  /** Concatenation of a list of strings. */
  function Concat(ts: seq<string>): string
  {
    if ts == [] then [] else ts[0] + Concat(ts[1..])
  }

  /** `s` with every occurrence of `delim` removed. */
  function Without(s: string, delim: char): string
  {
    if s == [] then [] else (if s[0] == delim then [] else [s[0]]) + Without(s[1..], delim)
  }

  /** ulib::split: the tokens of `s`, empty ones dropped. */
  method Split(s: string, delim: char) returns (tokens: seq<string>)
    ensures tokens == Tokens(s, delim)
  {
    tokens := [];
    var token := "";
    var i := 0;
    while i < |s|
      invariant 0 <= i <= |s|
      invariant tokens + TokensFrom(s[i..], delim, token) == Tokens(s, delim)
    {
      assert s[i..][1..] == s[i + 1..];
      if s[i] == delim {
        if token != "" {
          tokens := tokens + [token];
        }
        token := "";
      } else {
        token := token + [s[i]];
      }
      i := i + 1;
    }
    if token != "" {
      tokens := tokens + [token];
    }
  }

  /** ulib::numTokens: how many tokens split would return. */
  method NumTokens(s: string, delim: char) returns (count: nat)
    ensures count == |Tokens(s, delim)|
  {
    count := 0;
    var token := "";
    var i := 0;
    while i < |s|
      invariant 0 <= i <= |s|
      invariant count + |TokensFrom(s[i..], delim, token)| == |Tokens(s, delim)|
    {
      assert s[i..][1..] == s[i + 1..];
      if s[i] == delim {
        if token != "" {
          count := count + 1;
        }
        token := "";
      } else {
        token := token + [s[i]];
      }
      i := i + 1;
    }
    if token != "" {
      count := count + 1;
    }
  }

  lemma {:induction false} TokensFromAreWords(s: string, delim: char, cur: string)
    requires delim !in cur
    ensures forall i :: 0 <= i < |TokensFrom(s, delim, cur)| ==>
      TokensFrom(s, delim, cur)[i] != [] && delim !in TokensFrom(s, delim, cur)[i]
    decreases |s|
  {
    if s != [] {
      if s[0] == delim {
        TokensFromAreWords(s[1..], delim, []);
      } else {
        TokensFromAreWords(s[1..], delim, cur + [s[0]]);
      }
    }
  }

  /** Every token is non-empty and free of the delimiter. */
  lemma TokensAreWords(s: string, delim: char)
    ensures forall i :: 0 <= i < |Tokens(s, delim)| ==>
      Tokens(s, delim)[i] != [] && delim !in Tokens(s, delim)[i]
  {
    TokensFromAreWords(s, delim, []);
  }

  lemma {:induction false} ConcatAppend(a: seq<string>, b: seq<string>)
    ensures Concat(a + b) == Concat(a) + Concat(b)
  {
    if a == [] {
      assert a + b == b;
    } else {
      assert (a + b)[0] == a[0];
      assert (a + b)[1..] == a[1..] + b;
      ConcatAppend(a[1..], b);
    }
  }

  lemma {:induction false} TokensFromCover(s: string, delim: char, cur: string)
    ensures Concat(TokensFrom(s, delim, cur)) == cur + Without(s, delim)
    decreases |s|
  {
    if s == [] {
    } else if s[0] == delim {
      TokensFromCover(s[1..], delim, []);
      var first: seq<string> := if cur == [] then [] else [cur];
      ConcatAppend(first, TokensFrom(s[1..], delim, []));
    } else {
      TokensFromCover(s[1..], delim, cur + [s[0]]);
    }
  }

  /** The tokens, put back together, are the text without its delimiters. */
  lemma TokensCoverText(s: string, delim: char)
    ensures Concat(Tokens(s, delim)) == Without(s, delim)
  {
    TokensFromCover(s, delim, []);
  }

  /** Reading across a delimiter ends the current token and starts afresh. */
  lemma {:induction false} TokensFromAcross(a: string, b: string, delim: char, cur: string)
    ensures TokensFrom(a + [delim] + b, delim, cur) == TokensFrom(a, delim, cur) + TokensFrom(b, delim, [])
    decreases |a|
  {
    if a == [] {
      assert a + [delim] + b == [delim] + b;
      assert ([delim] + b)[1..] == b;
    } else {
      assert (a + [delim] + b)[0] == a[0];
      assert (a + [delim] + b)[1..] == a[1..] + [delim] + b;
      if a[0] == delim {
        TokensFromAcross(a[1..], b, delim, []);
      } else {
        TokensFromAcross(a[1..], b, delim, cur + [a[0]]);
      }
    }
  }

  lemma {:induction false} TokensFromWord(t: string, delim: char, cur: string)
    requires delim !in t && cur + t != []
    ensures TokensFrom(t, delim, cur) == [cur + t]
    decreases |t|
  {
    if t != [] {
      assert cur + [t[0]] + t[1..] == cur + t;
      TokensFromWord(t[1..], delim, cur + [t[0]]);
    } else {
      assert cur + t == cur;
    }
  }

  // ---------------------------------------------------------------------------
  // join (utility.hpp:82-90)

  /** What ulib::join writes: the delimiter in front of every string. */
  function JoinAsWritten(strs: seq<string>, delim: char): string
  {
    if strs == [] then [] else JoinAsWritten(strs[..|strs| - 1], delim) + [delim] + strs[|strs| - 1]
  }

  /** ulib::join, the loop that streams `delim` and then each string. */
  method Join(strs: seq<string>, delim: char) returns (s: string)
    ensures s == JoinAsWritten(strs, delim)
  {
    s := [];
    var i := 0;
    while i < |strs|
      invariant 0 <= i <= |strs|
      invariant s == JoinAsWritten(strs[..i], delim)
    {
      assert strs[..i + 1][..i] == strs[..i];
      s := s + [delim] + strs[i];
      i := i + 1;
    }
    assert strs[..|strs|] == strs;
  }

  /** The strings with the delimiter between consecutive ones, as the tests expect. */
  function Joined(strs: seq<string>, delim: char): string
  {
    if strs == [] then []
    else if |strs| == 1 then strs[0]
    else Joined(strs[..|strs| - 1], delim) + [delim] + strs[|strs| - 1]
  }

  /** As written, a non-empty join always starts with a stray delimiter. */
  lemma {:induction false} JoinLeadingDelimiter(strs: seq<string>, delim: char)
    requires strs != []
    ensures JoinAsWritten(strs, delim) == [delim] + Joined(strs, delim)
    decreases |strs|
  {
    var n := |strs| - 1;
    var front := strs[..n];
    if n == 0 {
      assert front == [];
    } else {
      JoinLeadingDelimiter(front, delim);
      assert JoinAsWritten(strs, delim) == JoinAsWritten(front, delim) + [delim] + strs[n];
      assert Joined(strs, delim) == Joined(front, delim) + [delim] + strs[n];
    }
  }

  /** The join of the two-word test case differs from the expected "Hello World". */
  lemma JoinTestCase()
    ensures JoinAsWritten(["Hello", "World"], ' ') == " Hello World"
    ensures Joined(["Hello", "World"], ' ') == "Hello World"
  {
    JoinLeadingDelimiter(["Hello", "World"], ' ');
    assert ["Hello", "World"][..1] == ["Hello"];
  }

  /** Splitting a corrected join gives the words back. */
  lemma {:induction false} SplitJoined(ts: seq<string>, delim: char)
    requires forall i :: 0 <= i < |ts| ==> ts[i] != [] && delim !in ts[i]
    ensures Tokens(Joined(ts, delim), delim) == ts
    decreases |ts|
  {
    if ts == [] {
    } else if |ts| == 1 {
      TokensFromWord(ts[0], delim, []);
      assert [] + ts[0] == ts[0];
    } else {
      var n := |ts| - 1;
      SplitJoined(ts[..n], delim);
      TokensFromAcross(Joined(ts[..n], delim), ts[n], delim, []);
      TokensFromWord(ts[n], delim, []);
      assert [] + ts[n] == ts[n];
      assert ts[..n] + [ts[n]] == ts;
    }
  }

  // ---------------------------------------------------------------------------
  // toLower and toUpper (utility.hpp:94-116), for the "C" locale

  function LowerChar(c: char): char
  {
    if 'A' <= c <= 'Z' then (c as int + 32) as char else c
  }

  function UpperChar(c: char): char
  {
    if 'a' <= c <= 'z' then (c as int - 32) as char else c
  }

  /** `s` with every ASCII capital letter replaced by its small letter. */
  function Lower(s: string): string
  {
    seq(|s|, i requires 0 <= i < |s| => LowerChar(s[i]))
  }

  /** `s` with every ASCII small letter replaced by its capital letter. */
  function Upper(s: string): string
  {
    seq(|s|, i requires 0 <= i < |s| => UpperChar(s[i]))
  }

  method ToLower(s: string) returns (r: string)
    ensures r == Lower(s)
  {
    r := [];
    var i := 0;
    while i < |s|
      invariant 0 <= i <= |s|
      invariant r == Lower(s[..i])
    {
      r := r + [LowerChar(s[i])];
      i := i + 1;
    }
    assert s[..|s|] == s;
  }

  method ToUpper(s: string) returns (r: string)
    ensures r == Upper(s)
  {
    r := [];
    var i := 0;
    while i < |s|
      invariant 0 <= i <= |s|
      invariant r == Upper(s[..i])
    {
      r := r + [UpperChar(s[i])];
      i := i + 1;
    }
    assert s[..|s|] == s;
  }

  /** Case conversion keeps the length, is idempotent, and each undoes the other up to case. */
  lemma CaseConversions(s: string)
    ensures |Lower(s)| == |s| && |Upper(s)| == |s|
    ensures Lower(Lower(s)) == Lower(s) && Upper(Upper(s)) == Upper(s)
    ensures Lower(Upper(s)) == Lower(s) && Upper(Lower(s)) == Upper(s)
    ensures forall i :: 0 <= i < |s| ==> !('A' <= Lower(s)[i] <= 'Z') && !('a' <= Upper(s)[i] <= 'z')
  {
  }

  // ---------------------------------------------------------------------------
  // trim (utility.hpp:120-150)

  /** The characters std::isspace accepts in the "C" locale. */
  predicate IsSpace(c: char)
  {
    c == ' ' || c == '\t' || c == '\n' || c == '\U{000B}' || c == '\U{000C}' || c == '\r'
  }

  /** `s` without its leading white space. */
  function TrimLeft(s: string): (r: string)
    ensures |r| <= |s| && r == s[|s| - |r|..]
    ensures forall i :: 0 <= i < |s| - |r| ==> IsSpace(s[i])
    ensures r != [] ==> !IsSpace(r[0])
  {
    if s != [] && IsSpace(s[0]) then TrimLeft(s[1..]) else s
  }

  /** `s` without its trailing white space. */
  function TrimRight(s: string): (r: string)
    ensures |r| <= |s| && r == s[..|r|]
    ensures forall i :: |r| <= i < |s| ==> IsSpace(s[i])
    ensures r != [] ==> !IsSpace(r[|r| - 1])
  {
    if s != [] && IsSpace(s[|s| - 1]) then TrimRight(s[..|s| - 1]) else s
  }

  function Trimmed(s: string): string
  {
    TrimRight(TrimLeft(s))
  }

  lemma {:induction false} TrimLeftAt(s: string, k: nat)
    requires k <= |s|
    requires forall i :: 0 <= i < k ==> IsSpace(s[i])
    requires k < |s| ==> !IsSpace(s[k])
    ensures TrimLeft(s) == s[k..]
  {
    if k > 0 {
      TrimLeftAt(s[1..], k - 1);
      assert s[1..][k - 1..] == s[k..];
    }
  }

  lemma {:induction false} TrimRightAt(s: string, k: nat)
    requires k <= |s|
    requires forall i :: k <= i < |s| ==> IsSpace(s[i])
    requires 0 < k ==> !IsSpace(s[k - 1])
    ensures TrimRight(s) == s[..k]
    decreases |s|
  {
    if k < |s| {
      TrimRightAt(s[..|s| - 1], k);
      assert s[..|s| - 1][..k] == s[..k];
    } else {
      assert s[..k] == s;
    }
  }

  lemma SliceOfSuffix(s: string, a: nat, k: nat)
    requires a + k <= |s|
    ensures s[a..][..k] == s[a..a + k]
  {
  }

  /** Trimming keeps exactly the text from the first to the last non-space character. */
  lemma TrimmedBetween(s: string, start: nat, end: nat)
    requires start <= end < |s|
    requires forall k :: 0 <= k < start ==> IsSpace(s[k])
    requires forall k :: end < k < |s| ==> IsSpace(s[k])
    requires !IsSpace(s[start]) && !IsSpace(s[end])
    ensures Trimmed(s) == s[start..end + 1]
  {
    TrimLeftAt(s, start);
    TrimRightOfSuffix(s, start, end);
  }

  /** Trailing white space after `end` comes off the suffix that starts at `start`. */
  lemma TrimRightOfSuffix(s: string, start: nat, end: nat)
    requires start <= end < |s|
    requires forall k :: end < k < |s| ==> IsSpace(s[k])
    requires !IsSpace(s[end])
    ensures TrimRight(s[start..]) == s[start..end + 1]
  {
    var t := s[start..];
    var k := end - start + 1;
    forall i | k <= i < |t| ensures IsSpace(t[i]) {
      assert t[i] == s[start + i];
    }
    assert t[k - 1] == s[end];
    TrimRightAt(t, k);
    SliceOfSuffix(s, start, k);
  }

  /**
   * ulib::trim.  An empty string is an error; a string of white space trims to the
   * empty string (the source also logs a warning); otherwise the text from the first
   * to the last non-space character.
   */
  method Trim(s: string) returns (r: Result<string>)
    ensures r.Err? <==> s == []
    ensures r.Ok? ==> r.value == Trimmed(s)
  {
    if s == [] {
      return Err("Cannot trim an empty string!");
    }
    // the first non-space character, if any
    var i := 0;
    while i < |s| && IsSpace(s[i])
      invariant 0 <= i <= |s|
      invariant forall k :: 0 <= k < i ==> IsSpace(s[k])
    {
      i := i + 1;
    }
    if i == |s| {
      TrimLeftAt(s, |s|);
      return Ok("");
    }
    var start := i;
    // the last non-space character; the scan stops at `start` at the latest
    var end := |s| - 1;
    while IsSpace(s[end])
      invariant start <= end < |s|
      invariant forall k :: end < k < |s| ==> IsSpace(s[k])
      decreases end
    {
      end := end - 1;
    }
    TrimmedBetween(s, start, end);
    return Ok(s[start..end + 1]);
  }

  /** Trimming twice is trimming once, and the result neither starts nor ends in white space. */
  lemma TrimmedIsTrimmed(s: string)
    ensures Trimmed(Trimmed(s)) == Trimmed(s)
    ensures Trimmed(s) != [] ==> !IsSpace(Trimmed(s)[0]) && !IsSpace(Trimmed(s)[|Trimmed(s)| - 1])
  {
    var t := Trimmed(s);
    var l := TrimLeft(s);
    if t != [] {
      assert t == l[..|t|];
      TrimLeftAt(t, 0);
      TrimRightAt(t, |t|);
    }
  }

  // ---------------------------------------------------------------------------
  // mapKeys and mapVals (utility.hpp:154-174): std::map visits its keys in ascending order

  lemma HasElement(s: set<int>)
    requires s != {}
    ensures exists x :: x in s
  {
    if forall x :: x !in s {
      assert false;
    }
  }

  /** The least element of a non-empty set of keys. */
  ghost function Least(s: set<int>): (m: int)
    requires s != {}
    ensures m in s && forall x :: x in s ==> m <= x
    decreases |s|
  {
    HasElement(s);
    var x :| x in s;
    if s == {x} then x
    else
      var m' := Least(s - {x});
      assert forall y :: y in s ==> y == x || y in s - {x};
      if x < m' then x else m'
  }

  /** The keys of a map in the order std::map visits them. */
  ghost function KeysAscending(s: set<int>): seq<int>
    decreases |s|
  {
    if s == {} then [] else [Least(s)] + KeysAscending(s - {Least(s)})
  }

  /** The keys in ascending order are exactly the keys, each once, strictly increasing. */
  lemma {:induction false} KeysAscendingOrdered(s: set<int>)
    ensures |KeysAscending(s)| == |s|
    ensures forall k :: k in KeysAscending(s) <==> k in s
    ensures forall i, j :: 0 <= i < j < |KeysAscending(s)| ==> KeysAscending(s)[i] < KeysAscending(s)[j]
    decreases |s|
  {
    if s != {} {
      var m := Least(s);
      KeysAscendingOrdered(s - {m});
      var rest := KeysAscending(s - {m});
      assert KeysAscending(s) == [m] + rest;
      forall i, j | 0 <= i < j < |KeysAscending(s)|
        ensures KeysAscending(s)[i] < KeysAscending(s)[j]
      {
        if i == 0 {
          assert KeysAscending(s)[j] == rest[j - 1];
          assert rest[j - 1] in s - {m};
        }
      }
    }
  }

  method SmallestKey(s: set<int>) returns (m: int)
    requires s != {}
    ensures m == Least(s)
  {
    var rest := s;
    HasElement(rest);
    m :| m in rest;
    rest := rest - {m};
    while rest != {}
      invariant rest <= s && m in s
      invariant forall x :: x in s && x !in rest ==> m <= x
      decreases |rest|
    {
      HasElement(rest);
      var x :| x in rest;
      if x < m {
        m := x;
      }
      rest := rest - {x};
    }
  }

  /** ulib::mapKeys: the keys of `m` in ascending order. */
  method MapKeys<V>(m: map<int, V>) returns (keys: seq<int>)
    ensures keys == KeysAscending(m.Keys)
  {
    keys := [];
    var rest := m.Keys;
    while rest != {}
      invariant rest <= m.Keys
      invariant keys + KeysAscending(rest) == KeysAscending(m.Keys)
      decreases |rest|
    {
      var k := SmallestKey(rest);
      keys := keys + [k];
      rest := rest - {k};
    }
  }

  /** ulib::mapVals: the values of `m`, in the ascending order of their keys. */
  method MapVals<V>(m: map<int, V>) returns (vals: seq<V>)
    ensures |vals| == |KeysAscending(m.Keys)|
    ensures forall i :: 0 <= i < |vals| ==> KeysAscending(m.Keys)[i] in m && vals[i] == m[KeysAscending(m.Keys)[i]]
  {
    var keys := MapKeys(m);
    KeysAscendingOrdered(m.Keys);
    vals := [];
    var i := 0;
    while i < |keys|
      invariant 0 <= i <= |keys| && |vals| == i
      invariant forall j :: 0 <= j < i ==> vals[j] == m[keys[j]]
    {
      vals := vals + [m[keys[i]]];
      i := i + 1;
    }
  }
}
