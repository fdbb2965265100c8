/**
 * The quote escaping applied to typed text before it is placed between
 * double quotes on the synthetic-typing command line: every `"` becomes
 * `\"`, every other character is kept.
 */
module Escaping {

  /** `text.replace('"', '\\"')`: replaces each double quote by a backslash
      followed by a double quote. */
  function Escape(s: string): string
  {
    if s == [] then []
    else (if s[0] == '"' then ['\\', '"'] else [s[0]]) + Escape(s[1..])
  }

  /** Partner of Escape: drops the backslash of every `\"` pair. */
  function Unescape(s: string): string
  {
    if |s| >= 2 && s[0] == '\\' && s[1] == '"' then ['"'] + Unescape(s[2..])
    else if s == [] then []
    else [s[0]] + Unescape(s[1..])
  }

  /** The number of double quotes in s. */
  function QuoteCount(s: string): nat
  {
    if s == [] then 0 else (if s[0] == '"' then 1 else 0) + QuoteCount(s[1..])
  }

  /** An escaped text never starts with a bare quote. */
  lemma EscapeHead(s: string)
    requires s != []
    ensures Escape(s) != [] && Escape(s)[0] != '"'
  {
  }

  /** Unescaping the escaped text gives back the input: no character is
      lost, added or reordered. */
  lemma {:induction false} UnescapeEscape(s: string)
    ensures Unescape(Escape(s)) == s
  {
    if s != [] {
      var rest := Escape(s[1..]);
      UnescapeEscape(s[1..]);
      if s[0] == '"' {
        assert Escape(s) == ['\\', '"'] + rest;
        assert (['\\', '"'] + rest)[2..] == rest;
      } else {
        assert Escape(s) == [s[0]] + rest;
        if s[0] == '\\' && rest != [] {
          EscapeHead(s[1..]);
        }
        assert ([s[0]] + rest)[1..] == rest;
      }
    }
  }

  /** The escaped text is one character longer per quote in the input. */
  lemma {:induction false} EscapeLength(s: string)
    ensures |Escape(s)| == |s| + QuoteCount(s)
  {
    if s != [] {
      EscapeLength(s[1..]);
    }
  }

  /** Text without quotes is passed on unchanged. */
  lemma {:induction false} EscapeNoQuote(s: string)
    requires forall i :: 0 <= i < |s| ==> s[i] != '"'
    ensures Escape(s) == s
  {
    if s != [] {
      EscapeNoQuote(s[1..]);
      assert s == [s[0]] + s[1..];
    }
  }

  /** Every quote in the escaped text is directly preceded by a backslash. */
  lemma {:induction false} EscapedQuotesAreEscaped(s: string, i: nat)
    requires i < |Escape(s)| && Escape(s)[i] == '"'
    ensures i > 0 && Escape(s)[i - 1] == '\\'
  {
    var head := if s[0] == '"' then ['\\', '"'] else [s[0]];
    var rest := Escape(s[1..]);
    assert Escape(s) == head + rest;
    if i >= |head| {
      assert rest[i - |head|] == '"';
      EscapedQuotesAreEscaped(s[1..], i - |head|);
      if i - |head| > 0 {
        assert Escape(s)[i - 1] == rest[i - |head| - 1];
      }
    }
  }
}
