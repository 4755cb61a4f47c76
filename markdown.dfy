/** Telegram MarkdownV2 escaping (`escape_markdown_v2`). */
module MarkdownV2 {

  /** The 18 characters the bot escapes. The backslash is not among them. */
  const Reserved: set<char> :=
    {'_', '*', '[', ']', '(', ')', '~', '`', '>', '#', '+', '-', '=', '|', '{', '}', '.', '!'}

  const EscapeMarker: char := '\\'

  /** One input character as it is written out. */
  function EscapeChar(c: char): string {
    if c in Reserved then [EscapeMarker, c] else [c]
  }

  /** The escaper: each character of `s`, in order, through `EscapeChar`. */
  function Escape(s: string): (r: string)
    ensures |r| >= |s|
    ensures s == [] <==> r == []
  {
    if s == [] then [] else EscapeChar(s[0]) + Escape(s[1..])
  }

  /** The number of reserved characters in `s`. */
  function CountReserved(s: string): nat {
    if s == [] then 0 else (if s[0] in Reserved then 1 else 0) + CountReserved(s[1..])
  }

  /** Reads escaped text back: a backslash followed by a reserved
      character stands for that character; every other character stands
      for itself. */
  function Unescape(r: string): (s: string)
    ensures |s| <= |r|
  {
    if r == [] then []
    else if |r| >= 2 && r[0] == EscapeMarker && r[1] in Reserved then [r[1]] + Unescape(r[2..])
    else [r[0]] + Unescape(r[1..])
  }

  /** Escaping distributes over concatenation. */
  lemma {:induction false} EscapeAppend(a: string, b: string)
    ensures Escape(a + b) == Escape(a) + Escape(b)
  {
    if a == [] {
      assert a + b == b;
    } else {
      assert (a + b)[0] == a[0] && (a + b)[1..] == a[1..] + b;
      EscapeAppend(a[1..], b);
    }
  }

  /** Each reserved character adds exactly one marker. */
  lemma {:induction false} EscapeLength(s: string)
    ensures |Escape(s)| == |s| + CountReserved(s)
  {
    if s != [] {
      EscapeLength(s[1..]);
    }
  }

  /** Escaped text never begins with a reserved character. */
  lemma EscapeHead(s: string)
    requires s != []
    ensures Escape(s)[0] !in Reserved
    ensures Escape(s)[0] == (if s[0] in Reserved then EscapeMarker else s[0])
  {
  }

  /** Escaping loses nothing: reading the output back gives the input. */
  lemma {:induction false} UnescapeEscape(s: string)
    ensures Unescape(Escape(s)) == s
  {
    if s != [] {
      var rest := Escape(s[1..]);
      UnescapeEscape(s[1..]);
      if s[0] in Reserved {
        assert Escape(s) == [EscapeMarker, s[0]] + rest;
        assert Escape(s)[2..] == rest;
      } else {
        assert Escape(s) == [s[0]] + rest;
        if rest != [] {
          EscapeHead(s[1..]);
        }
        assert Escape(s)[1..] == rest;
      }
    }
  }

  /** Escaping is injective, as a consequence of the round trip. */
  lemma EscapeInjective(a: string, b: string)
    requires Escape(a) == Escape(b)
    ensures a == b
  {
    UnescapeEscape(a);
    UnescapeEscape(b);
  }

  /** In escaped text every reserved character stands right after a marker. */
  lemma {:induction false} EscapedReservedArePrefixed(s: string, i: nat)
    requires i < |Escape(s)| && Escape(s)[i] in Reserved
    ensures i > 0 && Escape(s)[i - 1] == EscapeMarker
  {
    var rest := Escape(s[1..]);
    if s[0] in Reserved {
      assert Escape(s) == [EscapeMarker, s[0]] + rest;
      if i >= 2 {
        EscapedReservedArePrefixed(s[1..], i - 2);
      }
    } else {
      assert Escape(s) == [s[0]] + rest;
      EscapedReservedArePrefixed(s[1..], i - 1);
    }
  }

  /** The marker itself is not escaped: a backslash in the input is copied
      as it is, so `\*` comes out as a backslash followed by `\*`. */
  lemma BackslashPassesThrough()
    ensures EscapeMarker !in Reserved
    ensures Escape("\\*") == "\\\\*"
  {
  }
}
