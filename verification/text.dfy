/**
 The few `std::string` operations the host uses, on strings modelled as
 sequences of characters (one character per byte read from the pipe).
 */
module Text {
  import opened Wrappers

  /** The NUL byte that terminates a C string. */
  const Nul: char := '\0'

  predicate StartsWith(s: string, prefix: string) {
    |prefix| <= |s| && s[..|prefix|] == prefix
  }

  predicate EndsWith(s: string, suffix: string) {
    |suffix| <= |s| && s[|s| - |suffix|..] == suffix
  }

  /** `s.find(c)`: the index of the first occurrence of `c`, if any. */
  function Find(s: string, c: char): (r: Option<nat>)
    ensures r.None? <==> c !in s
    ensures r.Some? ==> r.value < |s| && s[r.value] == c && c !in s[..r.value]
  {
    if |s| == 0 then None
    else if s[0] == c then Some(0)
    else match Find(s[1..], c)
      case None => None
      case Some(i) => assert s[1..][..i] == s[1..i + 1]; Some(i + 1)
  }

  /**
   `std::string(buffer)`: the characters of `s` up to, not including, the
   first NUL (all of `s` when it holds none).
   */
  function TakeUntilNul(s: seq<char>): (t: string)
    ensures |t| <= |s| && t == s[..|t|]
    ensures Nul !in t
    ensures |t| < |s| ==> s[|t|] == Nul
  {
    if |s| == 0 || s[0] == Nul then []
    else [s[0]] + TakeUntilNul(s[1..])
  }

  /** A string without NUL reads back whole, whatever follows its terminator. */
  lemma {:induction false} TakeUntilNulOfTerminated(t: string, rest: seq<char>)
    requires Nul !in t
    ensures TakeUntilNul(t + [Nul] + rest) == t
  {
    if |t| > 0 {
      assert (t + [Nul] + rest)[1..] == t[1..] + [Nul] + rest;
      TakeUntilNulOfTerminated(t[1..], rest);
    }
  }

  /** A string without NUL reads back whole when nothing follows it. */
  lemma {:induction false} TakeUntilNulOfPlain(t: string)
    requires Nul !in t
    ensures TakeUntilNul(t) == t
  {
    if |t| > 0 {
      TakeUntilNulOfPlain(t[1..]);
    }
  }
}
