/**
 * Traditional to simplified conversion (simplified/simplified.go): the rune
 * buffer is rewritten in place, word by word, with the simplified spelling
 * the dictionary gives the longest word at the current position, or one
 * character at a time from a replacement table when no word matches.
 *
 * The dictionary lookup and the generated replacement table are parameters.
 * `Shape` states what the lookup of `dict/dict.go` guarantees its callers.
 */
module Simplified {

  /**
   * `dict.Main.Lookup` as this package uses it: the length of the word at
   * the start of the runes, and the simplified spelling of each of its
   * meanings, as runes.
   */
  type Lookup = seq<int> -> (nat, seq<seq<int>>)

  /**
   * The lookup's promise: the length is at most the input's, a word comes
   * with at least one meaning, and a meaning's simplified spelling is either
   * empty (no variants) or a respelling of the whole word.
   */
  ghost predicate Shape(lookup: Lookup)
  {
    forall s: seq<int> ::
      && lookup(s).0 <= |s|
      && (lookup(s).0 > 0 ==>
            |lookup(s).1| > 0
            && (|lookup(s).1[0]| == 0 || |lookup(s).1[0]| == lookup(s).0))
  }

  /** The length of the word `lookup` finds at the start of `s`. */
  function Len(lookup: Lookup, s: seq<int>): (l: nat)
    requires Shape(lookup)
    ensures l <= |s|
  {
    lookup(s).0
  }

  /** The simplified spelling of the first meaning of that word. */
  function Respelling(lookup: Lookup, s: seq<int>): (simp: seq<int>)
    requires Shape(lookup) && Len(lookup, s) > 0
    ensures |simp| == 0 || |simp| == Len(lookup, s)
  {
    lookup(s).1[0]
  }

  /** What conversion makes of the word at the start of `s`: its respelling, or the word itself when there is none. */
  function Head(lookup: Lookup, s: seq<int>): (h: seq<int>)
    requires Shape(lookup) && Len(lookup, s) > 0
    ensures |h| == Len(lookup, s)
  {
    var simp := Respelling(lookup, s);
    if |simp| > 0 then simp else s[..Len(lookup, s)]
  }

  /**
   * The runes after conversion, and whether anything was written: a
   * replaced single character or an overwritten word, even when what was
   * written equals what was there.
   */
  function Convert(lookup: Lookup, repl: map<int, int>, s: seq<int>): (r: (seq<int>, bool))
    requires Shape(lookup)
    ensures |r.0| == |s|
    decreases |s|
  {
    if |s| == 0 then ([], false)
    else
      var l := Len(lookup, s);
      if l == 0 then
        var rest := Convert(lookup, repl, s[1..]);
        if s[0] in repl then ([repl[s[0]]] + rest.0, true) else ([s[0]] + rest.0, rest.1)
      else
        var rest := Convert(lookup, repl, s[l..]);
        (Head(lookup, s) + rest.0, |Respelling(lookup, s)| > 0 || rest.1)
  }

  /** When nothing was written the runes are what they were. */
  lemma {:induction false} UnchangedWhenNotReplaced(lookup: Lookup, repl: map<int, int>, s: seq<int>)
    requires Shape(lookup)
    ensures !Convert(lookup, repl, s).1 ==> Convert(lookup, repl, s).0 == s
    decreases |s|
  {
    if |s| > 0 {
      var l := Len(lookup, s);
      if l == 0 {
        UnchangedWhenNotReplaced(lookup, repl, s[1..]);
        assert [s[0]] + s[1..] == s;
      } else {
        UnchangedWhenNotReplaced(lookup, repl, s[l..]);
        assert s[..l] + s[l..] == s;
      }
    }
  }

  /**
   * Where no word starts, only the first character may change, and only to
   * its replacement; the rest is converted on its own.
   */
  lemma {:induction false} NoWordAtStart(lookup: Lookup, repl: map<int, int>, s: seq<int>)
    requires Shape(lookup) && |s| > 0 && Len(lookup, s) == 0
    ensures var r := Convert(lookup, repl, s).0;
      && r[0] == (if s[0] in repl then repl[s[0]] else s[0])
      && r[1..] == Convert(lookup, repl, s[1..]).0
    ensures Convert(lookup, repl, s).1 == (s[0] in repl || Convert(lookup, repl, s[1..]).1)
  {
  }

  /**
   * Where a word of length `l` starts, exactly its `l` characters are
   * overwritten with the simplified spelling, or left as they are when the
   * spelling is empty; what follows is converted on its own.
   */
  lemma {:induction false} WordAtStart(lookup: Lookup, repl: map<int, int>, s: seq<int>)
    requires Shape(lookup) && |s| > 0 && Len(lookup, s) > 0
    ensures var l := Len(lookup, s);
      var simp := Respelling(lookup, s);
      var r := Convert(lookup, repl, s).0;
      && r[..l] == (if |simp| > 0 then simp else s[..l])
      && r[l..] == Convert(lookup, repl, s[l..]).0
    ensures Convert(lookup, repl, s).1 == (|Respelling(lookup, s)| > 0 || Convert(lookup, repl, s[Len(lookup, s)..]).1)
  {
    var l := Len(lookup, s);
    var rest := Convert(lookup, repl, s[l..]).0;
    assert (Head(lookup, s) + rest)[..l] == Head(lookup, s);
    assert (Head(lookup, s) + rest)[l..] == rest;
  }

  /** A character no word covers and no replacement names is kept, at every position. */
  lemma {:induction false} NothingToDo(lookup: Lookup, repl: map<int, int>, s: seq<int>)
    requires Shape(lookup)
    requires forall t :: Len(lookup, t) == 0 || |Respelling(lookup, t)| == 0
    requires forall i :: 0 <= i < |s| ==> s[i] !in repl
    ensures Convert(lookup, repl, s) == (s, false)
    decreases |s|
  {
    if |s| > 0 {
      var l := Len(lookup, s);
      if l == 0 {
        NothingToDo(lookup, repl, s[1..]);
        assert [s[0]] + s[1..] == s;
      } else {
        NothingToDo(lookup, repl, s[l..]);
        assert Head(lookup, s) == s[..l];
        assert s[..l] + s[l..] == s;
      }
    }
  }

  /** `cur` with the runes of `simp` written from `pos` on. */
  function Splice(cur: seq<int>, pos: nat, simp: seq<int>): (r: seq<int>)
    requires pos + |simp| <= |cur|
    ensures |r| == |cur|
  {
    cur[..pos] + simp + cur[pos + |simp|..]
  }

  /** `Splice` changes exactly the runes from `pos` to `pos + |simp|`, to those of `simp`. */
  lemma SpliceAt(cur: seq<int>, pos: nat, simp: seq<int>)
    requires pos + |simp| <= |cur|
    ensures forall k :: 0 <= k < |cur| && !(pos <= k < pos + |simp|) ==> Splice(cur, pos, simp)[k] == cur[k]
    ensures forall k :: pos <= k < pos + |simp| ==> Splice(cur, pos, simp)[k] == simp[k - pos]
  {
  }

  /**
   * One pass of the loop of `ToInplace` on the buffer `cur` at `pos`: the new
   * buffer, the new position and the new flag.
   */
  function Step(lookup: Lookup, repl: map<int, int>, cur: seq<int>, pos: nat, replaced: bool): (r: (seq<int>, nat, bool))
    requires Shape(lookup) && pos < |cur|
    ensures |r.0| == |cur| && pos < r.1 <= |cur|
  {
    var l := Len(lookup, cur[pos..]);
    if l == 0 then
      if cur[pos] in repl then (cur[pos := repl[cur[pos]]], pos + 1, true) else (cur, pos + 1, replaced)
    else
      var simp := Respelling(lookup, cur[pos..]);
      if |simp| > 0 then (Splice(cur, pos, simp), pos + l, true) else (cur, pos + l, replaced)
  }

  /** The loop of `ToInplace` run from `pos` to the end of the buffer. */
  function Loop(lookup: Lookup, repl: map<int, int>, cur: seq<int>, pos: nat, replaced: bool): (r: (seq<int>, bool))
    requires Shape(lookup) && pos <= |cur|
    ensures |r.0| == |cur|
    decreases |cur| - pos
  {
    if pos == |cur| then (cur, replaced)
    else
      var next := Step(lookup, repl, cur, pos, replaced);
      Loop(lookup, repl, next.0, next.1, next.2)
  }

  /** A pass of the loop leaves the rest of the run as it was. */
  lemma LoopNext(lookup: Lookup, repl: map<int, int>, cur: seq<int>, pos: nat, replaced: bool,
                 cur': seq<int>, pos': nat, replaced': bool)
    requires Shape(lookup) && pos < |cur|
    requires (cur', pos', replaced') == Step(lookup, repl, cur, pos, replaced)
    ensures Loop(lookup, repl, cur, pos, replaced) == Loop(lookup, repl, cur', pos', replaced')
  {
  }

  /** Writing `h` at `pos` puts it between the untouched prefix and the untouched suffix. */
  lemma {:induction false} SpliceParts(cur: seq<int>, pos: nat, h: seq<int>)
    requires pos + |h| <= |cur|
    ensures Splice(cur, pos, h)[..pos + |h|] == cur[..pos] + h
    ensures Splice(cur, pos, h)[pos + |h|..] == cur[pos + |h|..]
  {
  }

  /** Reassociating the converted buffer around the piece just written. */
  lemma {:induction false} Glue(written: seq<int>, restNext: seq<int>, prefix: seq<int>, h: seq<int>, rest: seq<int>, whole: seq<int>)
    requires written == prefix + h && restNext == rest && whole == h + rest
    ensures written + restNext == prefix + whole
  {
  }

  /** A pass where no word starts converts the one character at `pos`. */
  lemma {:induction false} StepChar(lookup: Lookup, repl: map<int, int>, cur: seq<int>, pos: nat, replaced: bool)
    requires Shape(lookup) && pos < |cur| && Len(lookup, cur[pos..]) == 0
    ensures var next := Step(lookup, repl, cur, pos, replaced);
      && next.1 == pos + 1
      && next.0[..pos + 1] + Convert(lookup, repl, next.0[pos + 1..]).0
         == cur[..pos] + Convert(lookup, repl, cur[pos..]).0
      && (next.2 || Convert(lookup, repl, next.0[pos + 1..]).1)
         == (replaced || Convert(lookup, repl, cur[pos..]).1)
  {
    var c := if cur[pos] in repl then repl[cur[pos]] else cur[pos];
    var next := Step(lookup, repl, cur, pos, replaced).0;
    assert next == Splice(cur, pos, [c]);
    var rest := Convert(lookup, repl, cur[pos + 1..]);
    assert Convert(lookup, repl, cur[pos..]) == ([c] + rest.0, cur[pos] in repl || rest.1) by {
      assert cur[pos..][1..] == cur[pos + 1..];
    }
    SpliceParts(cur, pos, [c]);
    Glue(next[..pos + 1], Convert(lookup, repl, next[pos + 1..]).0, cur[..pos], [c], rest.0, Convert(lookup, repl, cur[pos..]).0);
  }

  /** The conversion of the suffix at a word: the word's piece, then the rest converted. */
  lemma {:induction false} ConvertWordAt(lookup: Lookup, repl: map<int, int>, cur: seq<int>, pos: nat)
    requires Shape(lookup) && pos < |cur| && Len(lookup, cur[pos..]) > 0
    ensures var l := Len(lookup, cur[pos..]);
      var rest := Convert(lookup, repl, cur[pos + l..]);
      Convert(lookup, repl, cur[pos..])
        == (Head(lookup, cur[pos..]) + rest.0, |Respelling(lookup, cur[pos..])| > 0 || rest.1)
  {
    var s := cur[pos..];
    assert s[Len(lookup, s)..] == cur[pos + Len(lookup, s)..];
  }

  /** A pass where a word starts writes the word's piece and moves past the word. */
  lemma {:induction false} StepWordNext(lookup: Lookup, repl: map<int, int>, cur: seq<int>, pos: nat, replaced: bool)
    requires Shape(lookup) && pos < |cur| && Len(lookup, cur[pos..]) > 0
    ensures var next := Step(lookup, repl, cur, pos, replaced);
      && next.0 == Splice(cur, pos, Head(lookup, cur[pos..]))
      && next.1 == pos + Len(lookup, cur[pos..])
      && next.2 == (replaced || |Respelling(lookup, cur[pos..])| > 0)
      && next.0[..next.1] == cur[..pos] + Head(lookup, cur[pos..])
      && next.0[next.1..] == cur[next.1..]
  {
    var h := Head(lookup, cur[pos..]);
    if |Respelling(lookup, cur[pos..])| == 0 {
      assert Splice(cur, pos, h) == cur;
    }
    SpliceParts(cur, pos, h);
  }

  /** A buffer holding the word's piece up to `end` and the untouched input after it converts as the input does. */
  lemma {:induction false} WordGlue(lookup: Lookup, repl: map<int, int>, cur: seq<int>, pos: nat, next: seq<int>, end: nat)
    requires Shape(lookup) && pos < |cur| && Len(lookup, cur[pos..]) > 0
    requires end == pos + Len(lookup, cur[pos..]) && end <= |next| == |cur|
    requires next[..end] == cur[..pos] + Head(lookup, cur[pos..]) && next[end..] == cur[end..]
    ensures next[..end] + Convert(lookup, repl, next[end..]).0 == cur[..pos] + Convert(lookup, repl, cur[pos..]).0
  {
    ConvertWordAt(lookup, repl, cur, pos);
    Glue(next[..end], Convert(lookup, repl, next[end..]).0, cur[..pos], Head(lookup, cur[pos..]),
         Convert(lookup, repl, cur[end..]).0, Convert(lookup, repl, cur[pos..]).0);
  }

  /** A pass where a word starts leaves the word's piece converted in the buffer. */
  lemma {:induction false} StepWordBuffer(lookup: Lookup, repl: map<int, int>, cur: seq<int>, pos: nat, replaced: bool)
    requires Shape(lookup) && pos < |cur| && Len(lookup, cur[pos..]) > 0
    ensures var next := Step(lookup, repl, cur, pos, replaced);
      next.0[..next.1] + Convert(lookup, repl, next.0[next.1..]).0
        == cur[..pos] + Convert(lookup, repl, cur[pos..]).0
  {
    var next := Step(lookup, repl, cur, pos, replaced);
    StepWordNext(lookup, repl, cur, pos, replaced);
    WordGlue(lookup, repl, cur, pos, next.0, next.1);
  }

  /** A pass where a word starts records whether the word had a respelling. */
  lemma {:induction false} StepWordFlag(lookup: Lookup, repl: map<int, int>, cur: seq<int>, pos: nat, replaced: bool)
    requires Shape(lookup) && pos < |cur| && Len(lookup, cur[pos..]) > 0
    ensures var next := Step(lookup, repl, cur, pos, replaced);
      (next.2 || Convert(lookup, repl, next.0[next.1..]).1) == (replaced || Convert(lookup, repl, cur[pos..]).1)
  {
    var l := Len(lookup, cur[pos..]);
    var next := Step(lookup, repl, cur, pos, replaced);
    StepWordNext(lookup, repl, cur, pos, replaced);
    ConvertWordAt(lookup, repl, cur, pos);
    assert next.0[next.1..] == cur[pos + l..];
  }

  /** One pass of the loop converts exactly the piece at `pos`, whichever kind it is. */
  lemma {:induction false} StepConverts(lookup: Lookup, repl: map<int, int>, cur: seq<int>, pos: nat, replaced: bool)
    requires Shape(lookup) && pos < |cur|
    ensures var next := Step(lookup, repl, cur, pos, replaced);
      && next.0[..next.1] + Convert(lookup, repl, next.0[next.1..]).0
         == cur[..pos] + Convert(lookup, repl, cur[pos..]).0
      && (next.2 || Convert(lookup, repl, next.0[next.1..]).1)
         == (replaced || Convert(lookup, repl, cur[pos..]).1)
  {
    if Len(lookup, cur[pos..]) == 0 {
      StepChar(lookup, repl, cur, pos, replaced);
    } else {
      StepWordBuffer(lookup, repl, cur, pos, replaced);
      StepWordFlag(lookup, repl, cur, pos, replaced);
    }
  }

  /** The loop leaves the buffer converted from `pos` on and everything before it as it was. */
  lemma {:induction false} LoopConverts(lookup: Lookup, repl: map<int, int>, cur: seq<int>, pos: nat, replaced: bool)
    requires Shape(lookup) && pos <= |cur|
    ensures Loop(lookup, repl, cur, pos, replaced)
         == (cur[..pos] + Convert(lookup, repl, cur[pos..]).0, replaced || Convert(lookup, repl, cur[pos..]).1)
    decreases |cur| - pos
  {
    if pos == |cur| {
      assert cur[..pos] == cur && cur[pos..] == [];
      assert cur[..pos] + Convert(lookup, repl, cur[pos..]).0 == cur;
    } else {
      var next := Step(lookup, repl, cur, pos, replaced);
      LoopConverts(lookup, repl, next.0, next.1, next.2);
      StepConverts(lookup, repl, cur, pos, replaced);
    }
  }

  /** The inner loop of `ToInplace`: the runes of `simp` written over `a` from `pos` on. */
  method Overwrite(a: array<int>, pos: nat, simp: seq<int>)
    requires pos + |simp| <= a.Length
    modifies a
    ensures a[..] == Splice(old(a[..]), pos, simp)
  {
    for i := 0 to |simp|
      invariant forall k :: 0 <= k < a.Length && !(pos <= k < pos + i) ==> a[k] == old(a[k])
      invariant forall k :: pos <= k < pos + i ==> a[k] == simp[k - pos]
    {
      a[pos + i] := simp[i];
    }
    SpliceAt(old(a[..]), pos, simp);
    assert a[..] == Splice(old(a[..]), pos, simp);
  }

  /** The whole run of the loop of `ToInplace` is the conversion. */
  lemma LoopIsConvert(lookup: Lookup, repl: map<int, int>, s: seq<int>)
    requires Shape(lookup)
    ensures Loop(lookup, repl, s, 0, false) == Convert(lookup, repl, s)
  {
    LoopConverts(lookup, repl, s, 0, false);
    assert s[..0] == [] && s[0..] == s;
    assert s[..0] + Convert(lookup, repl, s).0 == Convert(lookup, repl, s).0;
  }

  /** One pass of the loop of `ToInplace` at `pos`, on the buffer itself. */
  method Pass(a: array<int>, lookup: Lookup, repl: map<int, int>, pos: nat, replaced: bool)
    returns (pos': nat, replaced': bool)
    requires Shape(lookup) && pos < a.Length
    modifies a
    ensures (a[..], pos', replaced') == Step(lookup, repl, old(a[..]), pos, replaced)
  {
    replaced' := replaced;
    var from := a[pos..];
    var l := Len(lookup, from);
    if l == 0 {
      if a[pos] in repl {
        replaced' := true;
        a[pos] := repl[a[pos]];
      }
      return pos + 1, replaced';
    }
    var simp := Respelling(lookup, from);
    if |simp| > 0 {
      Overwrite(a, pos, simp);
      replaced' := true;
    }
    return pos + l, replaced';
  }

  /**
   * `ToInplace`: walks the buffer, writing each word's simplified spelling
   * or a character's replacement in place, and reports whether it wrote
   * anything.
   */
  method ToInplace(a: array<int>, lookup: Lookup, repl: map<int, int>) returns (replaced: bool)
    requires Shape(lookup)
    modifies a
    ensures a[..] == Convert(lookup, repl, old(a[..])).0
    ensures replaced == Convert(lookup, repl, old(a[..])).1
  {
    LoopIsConvert(lookup, repl, a[..]);
    ghost var goal := Loop(lookup, repl, a[..], 0, false);
    replaced := false;
    var pos := 0;
    while pos < a.Length
      invariant 0 <= pos <= a.Length
      invariant Loop(lookup, repl, a[..], pos, replaced) == goal
      decreases a.Length - pos
    {
      ghost var cur, was := a[..], replaced;
      ghost var at := pos;
      pos, replaced := Pass(a, lookup, repl, pos, replaced);
      LoopNext(lookup, repl, cur, at, was, a[..], pos, replaced);
    }
  }

  /** `To`: the converted string when anything was written, the input itself otherwise. */
  method To(lookup: Lookup, repl: map<int, int>, from: seq<int>) returns (r: seq<int>)
    requires Shape(lookup)
    ensures r == Convert(lookup, repl, from).0
  {
    var runes := new int[|from|](i requires 0 <= i < |from| => from[i]);
    assert runes[..] == from;
    var replaced := ToInplace(runes, lookup, repl);
    if replaced {
      return runes[..];
    }
    UnchangedWhenNotReplaced(lookup, repl, from);
    return from;
  }
}
