/** The string operations the migrations use, on ASCII letters. */
module Texts {
  import opened SqlLogic

  predicate IsSpace(c: char) {
    c == ' ' || c == '\t' || c == '\n' || c == '\r'
  }

  function LowerChar(c: char): char {
    if 'A' <= c <= 'Z' then ((c as int) + 32) as char else c
  }

  function LowerText(s: string): string {
    if s == "" then "" else [LowerChar(s[0])] + LowerText(s[1..])
  }

  function StripRight(s: string): string {
    if s != "" && IsSpace(s[|s| - 1]) then StripRight(s[..|s| - 1]) else s
  }

  function Strip(s: string): string {
    if s != "" && IsSpace(s[0]) then Strip(s[1..]) else StripRight(s)
  }

  function RemoveSpace(s: string): string {
    if s == "" then "" else (if IsSpace(s[0]) then "" else [s[0]]) + RemoveSpace(s[1..])
  }

  predicate NoSpace(s: string) { forall c | c in s :: !IsSpace(c) }
  predicate NoLower(s: string) { forall c | c in s :: !('a' <= c <= 'z') }
  predicate NoUpper(s: string) { forall c | c in s :: !('A' <= c <= 'Z') }

  lemma {:induction false} RemoveSpaceClean(s: string)
    ensures NoSpace(RemoveSpace(s))
    ensures NoSpace(s) ==> RemoveSpace(s) == s
  {
    if s != "" {
      RemoveSpaceClean(s[1..]);
      assert s == [s[0]] + s[1..];
      assert NoSpace(s) ==> !IsSpace(s[0]) && NoSpace(s[1..]) by {
        assert s[0] in s && forall c | c in s[1..] :: c in s;
      }
    }
  }

  lemma {:induction false} UpperClean(s: string)
    ensures NoLower(UpperText(s))
    ensures NoLower(s) ==> UpperText(s) == s
    ensures NoSpace(s) ==> NoSpace(UpperText(s))
  {
    if s != "" {
      UpperClean(s[1..]);
      assert s == [s[0]] + s[1..];
      assert s[0] in s && forall c | c in s[1..] :: c in s;
    }
  }

  /** The same letters, in either case, and otherwise the same characters. */
  ghost predicate AlikeButCase(s: string, t: string) {
    |s| == |t| && forall i | 0 <= i < |s| ::
      || s[i] == t[i]
      || ('a' <= s[i] <= 'z' && t[i] as int == s[i] as int - 32)
      || ('a' <= t[i] <= 'z' && s[i] as int == t[i] as int - 32)
  }

  lemma {:induction false} UpperAlike(s: string, t: string)
    ensures UpperText(s) == UpperText(t) <==> AlikeButCase(s, t)
  {
    if s != "" && t != "" {
      UpperAlike(s[1..], t[1..]);
      assert AlikeButCase(s, t) ==> AlikeButCase(s[1..], t[1..]);
      assert UpperText(s)[0] == UpperChar(s[0]) && UpperText(s)[1..] == UpperText(s[1..]);
      assert UpperText(t)[0] == UpperChar(t[0]) && UpperText(t)[1..] == UpperText(t[1..]);
      assert AlikeButCase(s[1..], t[1..]) && AlikeButCase([s[0]], [t[0]]) ==> AlikeButCase(s, t) by {
        forall i | 0 < i < |s| && |s| == |t| ensures s[i] == s[1..][i - 1] && t[i] == t[1..][i - 1] {}
      }
      UpperCharAlike(s[0], t[0]);
      assert UpperChar(s[0]) == UpperChar(t[0]) <==> AlikeButCase([s[0]], [t[0]]);
    }
  }

  lemma UpperCharAlike(c: char, d: char)
    ensures UpperChar(c) == UpperChar(d) <==>
            || c == d
            || ('a' <= c <= 'z' && d as int == c as int - 32)
            || ('a' <= d <= 'z' && c as int == d as int - 32)
  {
    assert UpperChar(c) as int == if 'a' <= c <= 'z' then c as int - 32 else c as int;
    assert UpperChar(d) as int == if 'a' <= d <= 'z' then d as int - 32 else d as int;
    assert UpperChar(c) == UpperChar(d) <==> UpperChar(c) as int == UpperChar(d) as int;
  }

  /** Upper case is reached by changing case alone, and has no small letter left. */
  lemma UpperIsAlike(s: string)
    ensures AlikeButCase(UpperText(s), s) && NoLower(UpperText(s))
  {
    UpperClean(s);
    UpperClean(UpperText(s));
    UpperAlike(UpperText(s), s);
  }

  lemma {:induction false} LowerKeeps(s: string)
    requires NoUpper(s)
    ensures LowerText(s) == s
  {
    if s != "" {
      assert s == [s[0]] + s[1..];
      assert s[0] in s && forall c | c in s[1..] :: c in s;
      LowerKeeps(s[1..]);
    }
  }

  lemma LowerCharAlike(c: char, d: char)
    ensures LowerChar(c) == LowerChar(d) <==> UpperChar(c) == UpperChar(d)
  {
    UpperCharAlike(c, d);
    assert LowerChar(c) as int == if 'A' <= c <= 'Z' then c as int + 32 else c as int;
    assert LowerChar(d) as int == if 'A' <= d <= 'Z' then d as int + 32 else d as int;
    assert LowerChar(c) == LowerChar(d) <==> LowerChar(c) as int == LowerChar(d) as int;
  }

  lemma {:induction false} LowerAlike(s: string, t: string)
    ensures LowerText(s) == LowerText(t) <==> AlikeButCase(s, t)
  {
    UpperAlike(s, t);
    if s != "" && t != "" {
      LowerAlike(s[1..], t[1..]);
      UpperAlike(s[1..], t[1..]);
      LowerCharAlike(s[0], t[0]);
      assert UpperText(s)[0] == UpperChar(s[0]) && UpperText(s)[1..] == UpperText(s[1..]);
      assert UpperText(t)[0] == UpperChar(t[0]) && UpperText(t)[1..] == UpperText(t[1..]);
      assert LowerText(s)[0] == LowerChar(s[0]) && LowerText(s)[1..] == LowerText(s[1..]);
      assert LowerText(t)[0] == LowerChar(t[0]) && LowerText(t)[1..] == LowerText(t[1..]);
    }
  }

  predicate AllSpace(s: string) { forall c | c in s :: c == ' ' || c == '\t' || c == '\n' || c == '\r' }

  /** Stripping takes the whitespace at both ends and nothing else. */
  lemma {:induction false} StripExact(before: string, core: string, after: string)
    requires AllSpace(before) && AllSpace(after)
    requires core != "" ==> !AllSpace([core[0]]) && !AllSpace([core[|core| - 1]])
    ensures Strip(before + core + after) == core
    decreases |before|
  {
    var s := before + core + after;
    if before != "" {
      assert before[0] in before && s[1..] == before[1..] + core + after;
      assert forall c | c in before[1..] :: c in before;
      StripExact(before[1..], core, after);
    } else {
      assert s == core + after;
      if core == "" {
        assert s == after;
        BlankStrips(after);
      } else {
        assert core[0] in [core[0]];
        StripRightExact(core, after);
      }
    }
  }

  lemma {:induction false} BlankStrips(s: string)
    requires AllSpace(s)
    ensures Strip(s) == ""
  {
    if s != "" {
      assert s[0] in s && forall c | c in s[1..] :: c in s;
      BlankStrips(s[1..]);
    }
  }

  lemma {:induction false} StripRightExact(core: string, after: string)
    requires AllSpace(after) && core != "" && !AllSpace([core[|core| - 1]])
    ensures StripRight(core + after) == core
    decreases |after|
  {
    var s := core + after;
    if after != "" {
      var front := after[..|after| - 1];
      assert after == front + [after[|after| - 1]] && s[..|s| - 1] == core + front;
      assert AllSpace(front) by {
        forall c | c in front ensures c in after {}
      }
      StripRightExact(core, front);
      assert s[|s| - 1] == after[|after| - 1] && after[|after| - 1] in after;
    } else {
      assert s == core && core[|core| - 1] in [core[|core| - 1]];
    }
  }

  lemma StripKeeps(s: string)
    requires NoSpace(s)
    ensures Strip(s) == s
  {
    if s != "" { assert s[0] in s && s[|s| - 1] in s; }
  }

  lemma {:induction false} RemoveSpaceSplit(s: string, t: string)
    ensures RemoveSpace(s + t) == RemoveSpace(s) + RemoveSpace(t)
  {
    if s == "" {
      assert s + t == t;
    } else {
      assert (s + t)[1..] == s[1..] + t;
      RemoveSpaceSplit(s[1..], t);
    }
  }

  lemma {:induction false} UpperSplit(s: string, t: string)
    ensures UpperText(s + t) == UpperText(s) + UpperText(t)
  {
    if s == "" {
      assert s + t == t;
    } else {
      assert (s + t)[1..] == s[1..] + t;
      UpperSplit(s[1..], t);
    }
  }
}
