/** The pieces of the .NET string library that the game-rules engine relies on:
    `string.IsNullOrWhiteSpace`, `string.Split(char)` and `int.TryParse` applied to
    a one-character string. */
module Strings {

  /** `char.IsWhiteSpace` restricted to the control characters 9..13, the space,
      NEXT LINE (0x85) and NO-BREAK SPACE (0xA0). */
  predicate IsWhiteSpace(c: char) {
    c == ' ' || 9 <= c as int <= 13 || c as int == 0x85 || c as int == 0xA0
  }

  /** `string.IsNullOrWhiteSpace` on a non-null string: empty, or nothing but white space. */
  predicate IsNullOrWhiteSpace(s: string) {
    forall i :: 0 <= i < |s| ==> IsWhiteSpace(s[i])
  }

  /** `s.Split(sep)`: the maximal runs between separators, empty runs included,
      so a string with k separators always gives k + 1 tokens. */
  function Split(s: string, sep: char): (tokens: seq<string>)
    ensures |tokens| >= 1
  {
    if s == [] then [[]]
    else
      var rest := Split(s[1..], sep);
      if s[0] == sep then [[]] + rest
      else [[s[0]] + rest[0]] + rest[1..]
  }

  /** The characters of `s` other than `sep` (used to count the separators). */
  function RemoveAll(s: string, sep: char): (r: string)
    ensures |r| <= |s|
    ensures sep !in r
  {
    if s == [] then []
    else if s[0] == sep then RemoveAll(s[1..], sep)
    else [s[0]] + RemoveAll(s[1..], sep)
  }

  /** No token holds the separator, and there is one token more than there are separators. */
  lemma {:induction false} SplitTokens(s: string, sep: char)
    ensures forall i :: 0 <= i < |Split(s, sep)| ==> sep !in Split(s, sep)[i]
    ensures |Split(s, sep)| == 1 + |s| - |RemoveAll(s, sep)|
  {
    if s != [] {
      SplitTokens(s[1..], sep);
    }
  }

  /** `string.Join(sep, tokens)`, the inverse of `Split`. */
  function Join(tokens: seq<string>, sep: char): string
    requires |tokens| >= 1
  {
    if |tokens| == 1 then tokens[0] else tokens[0] + [sep] + Join(tokens[1..], sep)
  }

  /** Joining the tokens of a split gives the original string back. */
  lemma {:induction false} JoinSplit(s: string, sep: char)
    ensures Join(Split(s, sep), sep) == s
  {
    if s != [] {
      var rest := Split(s[1..], sep);
      JoinSplit(s[1..], sep);
      assert s == [s[0]] + s[1..];
      if s[0] == sep {
        JoinAfterToken([], sep, rest);
      } else {
        JoinExtendFirst(s[0], sep, rest);
      }
    }
  }

  /** Joining a token in front of further tokens puts one separator between them. */
  lemma JoinAfterToken(t: string, sep: char, rest: seq<string>)
    requires |rest| >= 1
    ensures Join([t] + rest, sep) == t + [sep] + Join(rest, sep)
  {
    assert ([t] + rest)[1..] == rest;
  }

  /** Growing the first token by one character grows the join by that character. */
  lemma JoinExtendFirst(c: char, sep: char, tokens: seq<string>)
    requires |tokens| >= 1
    ensures Join([[c] + tokens[0]] + tokens[1..], sep) == [c] + Join(tokens, sep)
  {
    var grown := [[c] + tokens[0]] + tokens[1..];
    assert grown[1..] == tokens[1..];
  }

  /** A string without the separator is a single token. */
  lemma {:induction false} SplitWithoutSeparator(t: string, sep: char)
    requires sep !in t
    ensures Split(t, sep) == [t]
  {
    if t != [] {
      SplitWithoutSeparator(t[1..], sep);
      assert [t[0]] + t[1..] == t;
    }
  }

  /** A separator-free prefix followed by the separator splits off as the first token. */
  lemma {:induction false} SplitAfterToken(t: string, sep: char, u: string)
    requires sep !in t
    ensures Split(t + [sep] + u, sep) == [t] + Split(u, sep)
  {
    var s := t + [sep] + u;
    if t == [] {
      assert s[0] == sep && s[1..] == u;
    } else {
      assert s[0] == t[0] && s[1..] == t[1..] + [sep] + u;
      SplitAfterToken(t[1..], sep, u);
      assert [t[0]] + t[1..] == t;
    }
  }

  /** Splitting a join of separator-free tokens gives the tokens back. */
  lemma {:induction false} SplitJoin(tokens: seq<string>, sep: char)
    requires |tokens| >= 1
    requires forall i :: 0 <= i < |tokens| ==> sep !in tokens[i]
    ensures Split(Join(tokens, sep), sep) == tokens
  {
    if |tokens| == 1 {
      SplitWithoutSeparator(tokens[0], sep);
    } else {
      SplitJoin(tokens[1..], sep);
      SplitAfterToken(tokens[0], sep, Join(tokens[1..], sep));
      assert [tokens[0]] + tokens[1..] == tokens;
    }
  }

  /** `int.TryParse(c.ToString(), out int value)`: succeeds exactly on the ASCII digits,
      and leaves 0 in the out parameter when it fails. */
  function TryParseDigit(c: char): (result: (bool, int))
    ensures result.0 <==> '0' <= c <= '9'
    ensures result.0 ==> 0 <= result.1 <= 9 && result.1 + '0' as int == c as int
    ensures !result.0 ==> result.1 == 0
  {
    if '0' <= c <= '9' then (true, c as int - '0' as int) else (false, 0)
  }
}
