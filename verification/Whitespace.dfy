/** What `String.prototype.trim` takes away. */
module Whitespace {

  predicate IsSpace(c: char) {
    c in {' ', '\t', '\n', '\r', '\U{000B}', '\U{000C}', '\U{00A0}', '\U{1680}', '\U{2028}', '\U{2029}', '\U{202F}',
          '\U{205F}', '\U{3000}', '\U{FEFF}'} || '\U{2000}' <= c <= '\U{200A}'
  }

  /** White space and line terminators (sections 12.2 and 12.3 of ECMA-262), by their code points. */
  lemma {:induction false} SpaceIs(c: char)
    ensures var n := c as int;
            IsSpace(c) <==> 9 <= n <= 13 || n == 32 || n == 160 || n == 5760 || 8192 <= n <= 8202 || n == 8232
                            || n == 8233 || n == 8239 || n == 8287 || n == 12288 || n == 65279
  {
  }

  function TrimStart(s: string): (r: string)
    ensures |r| <= |s|
  {
    if s != [] && IsSpace(s[0]) then TrimStart(s[1..]) else s
  }

  function TrimEnd(s: string): string {
    if s != [] && IsSpace(s[|s| - 1]) then TrimEnd(s[..|s| - 1]) else s
  }

  function Trim(s: string): string {
    TrimEnd(TrimStart(s))
  }

  ghost predicate AllSpace(s: string) {
    forall i :: 0 <= i < |s| ==> IsSpace(s[i])
  }

  /** What is left neither starts nor ends with a space. */
  lemma {:induction false} TrimStartIsTight(s: string)
    ensures TrimStart(s) != "" ==> !IsSpace(TrimStart(s)[0])
    ensures TrimStart(s) == "" <==> AllSpace(s)
  {
    hide IsSpace;
    if s == [] || !IsSpace(s[0]) {
    } else {
      TrimStartIsTight(s[1..]);
      assert AllSpace(s) <==> AllSpace(s[1..]) by {
        assert forall i :: 0 < i < |s| ==> s[i] == s[1..][i - 1];
      }
    }
  }

  lemma {:induction false} TrimStartBefore(before: string, s: string)
    requires AllSpace(before)
    ensures TrimStart(before + s) == TrimStart(s)
  {
    hide IsSpace;
    if before == [] {
      assert before + s == s;
    } else {
      assert (before + s)[1..] == before[1..] + s;
      TrimStartBefore(before[1..], s);
    }
  }

  lemma {:induction false} TrimStartAfter(s: string, after: string)
    ensures TrimStart(s + after) == if TrimStart(s) == "" then TrimStart(after) else TrimStart(s) + after
  {
    hide IsSpace;
    if s == [] {
      assert s + after == after;
    } else {
      assert (s + after)[1..] == s[1..] + after && (s + after)[0] == s[0];
      if IsSpace(s[0]) {
        TrimStartAfter(s[1..], after);
      }
    }
  }

  lemma {:induction false} TrimEndAfter(s: string, after: string)
    requires AllSpace(after)
    ensures TrimEnd(s + after) == TrimEnd(s)
    decreases |after|
  {
    hide IsSpace;
    if after == [] {
      assert s + after == s;
    } else {
      assert (s + after)[..|s + after| - 1] == s + after[..|after| - 1];
      TrimEndAfter(s, after[..|after| - 1]);
    }
  }

  /** Space around a text makes no difference. */
  lemma {:induction false} TrimSurrounded(before: string, s: string, after: string)
    requires AllSpace(before) && AllSpace(after)
    ensures Trim(before + (s + after)) == Trim(s)
  {
    hide IsSpace, AllSpace, TrimStart, TrimEnd;
    TrimStartBefore(before, s + after);
    TrimStartAfter(s, after);
    if TrimStart(s) == "" {
      TrimStartIsTight(after);
    } else {
      TrimEndAfter(TrimStart(s), after);
    }
  }
}
