/**
 * Pinyin syllables (pinyin/pinyin.go): the 16-bit packing of a sound and a
 * tone, the placement and rendering of the tone mark, and the parser that
 * reads one syllable at a time with the longest valid prefix.
 *
 * The syllable automaton and its tables are generated code that is not part
 * of this model; a `Machine` value stands for them, together with
 * `unicode.ToLower`.
 */
module Pinyin {
  import opened Wrappers
  import opened Bytes

  /** The tones `Neutral`, `Flat`, `Rising`, `Low` and `Falling`. */
  const Neutral: byte := 0
  const Flat: byte := 1
  const Rising: byte := 2
  const Low: byte := 3
  const Falling: byte := 4

  /**
   * The generated code this module runs over: `next` is `parserState.next`
   * (the state after one letter, `None` when the letter cannot follow),
   * `sound` is `parserState.Sound` (the syllable ending in a state, if any),
   * `spelling` is `Sound.String`, `special` is `Sound.special`, and `lower`
   * is `unicode.ToLower`.
   */
  datatype Machine = Machine(
    next: (int, char) -> Option<int>,
    sound: int -> Option<u16>,
    spelling: u16 -> string,
    special: u16 -> bool,
    lower: char -> char)

  // ---------------------------------------------------------------------
  // Packing

  /** `New`: the tone plus five times the sound, in 16-bit arithmetic. */
  function New(sound: u16, tone: byte): (p: u16)
    ensures sound * 5 + tone <= 0xFFFF ==> p == sound * 5 + tone
  {
    (tone + sound * 5) % 0x10000
  }

  /** `Decode`: the sound and the tone of a packed syllable. */
  function Decode(p: u16): (r: (u16, byte))
    ensures r.1 <= 4
    ensures r.0 * 5 + r.1 == p
  {
    (p / 5, p % 5)
  }

  /** A syllable packed with a tone of at most 4 decodes to what was packed, when the packing does not wrap. */
  lemma {:induction false} DecodeNew(sound: u16, tone: byte)
    requires tone <= 4 && sound * 5 + tone <= 0xFFFF
    ensures Decode(New(sound, tone)) == (sound, tone)
  {
    var p := New(sound, tone);
    assert p == sound * 5 + tone;
    var (s, t) := Decode(p);
    assert s * 5 + t == sound * 5 + tone;
  }

  /** Every 16-bit code is the packing of its decoding. */
  lemma {:induction false} NewDecode(p: u16)
    ensures New(Decode(p).0, Decode(p).1) == p
  {
  }

  // ---------------------------------------------------------------------
  // Tone mark placement

  predicate IsVowel(c: char)
  {
    c == 'a' || c == 'e' || c == 'i' || c == 'o' || c == 'u' || c == 'ü'
  }

  /** The index of the first vowel, `|rs|` when there is none. */
  function FirstVowel(rs: string): (j: nat)
    ensures j <= |rs|
    ensures j < |rs| ==> IsVowel(rs[j])
    ensures forall k :: 0 <= k < j ==> !IsVowel(rs[k])
  {
    if rs == [] then 0
    else if IsVowel(rs[0]) then 0
    else 1 + FirstVowel(rs[1..])
  }

  /**
   * Where the tone mark goes: on the first vowel when it is `a` or `e`, when
   * no vowel follows it directly, or when it is the `o` of `ou`; otherwise
   * on the vowel right after it; at 0 when there is no vowel at all.
   */
  function TonePos(rs: string): (pos: nat)
    ensures |rs| > 0 ==> pos < |rs|
    ensures FirstVowel(rs) == |rs| ==> pos == 0
    ensures FirstVowel(rs) < |rs| ==> IsVowel(rs[pos])
  {
    var j := FirstVowel(rs);
    if j == |rs| then 0
    else if rs[j] == 'a' || rs[j] == 'e' || j + 1 == |rs| || !IsVowel(rs[j + 1]) then j
    else if rs[j] == 'o' && rs[j + 1] == 'u' then j
    else j + 1
  }

  /** An `a` or `e` among the first two adjacent vowels always takes the mark. */
  lemma {:induction false} TonePosPrefersAE(rs: string)
    requires FirstVowel(rs) < |rs|
    requires var j := FirstVowel(rs);
      rs[j] == 'a' || rs[j] == 'e' || (j + 1 < |rs| && (rs[j + 1] == 'a' || rs[j + 1] == 'e'))
    ensures rs[TonePos(rs)] == 'a' || rs[TonePos(rs)] == 'e'
  {
  }

  /** `tonePosition`: one scan remembering the first vowel and whether it was an `o`. */
  method TonePosition(rs: string) returns (pos: int)
    ensures pos == TonePos(rs)
  {
    var wasO := false;
    var firstVowel := -1;
    var i := 0;
    while i < |rs|
      invariant 0 <= i <= |rs|
      invariant firstVowel == -1 ==> FirstVowel(rs) >= i
      invariant firstVowel != -1 ==>
        firstVowel == i - 1 && FirstVowel(rs) == firstVowel && rs[firstVowel] != 'a' && rs[firstVowel] != 'e'
      invariant wasO <==> firstVowel != -1 && rs[firstVowel] == 'o'
    {
      var r := rs[i];
      if r == 'a' || r == 'e' {
        return i;
      } else if r == 'o' {
        if firstVowel != -1 {
          return i;
        }
        wasO := true;
        firstVowel := i;
      } else if r == 'u' {
        if wasO {
          return i - 1;
        }
        if firstVowel != -1 {
          return i;
        }
        firstVowel := i;
      } else if r == 'i' || r == 'ü' {
        if firstVowel != -1 {
          return i;
        }
        firstVowel := i;
      } else {
        if firstVowel != -1 {
          return firstVowel;
        }
      }
      i := i + 1;
    }
    if firstVowel != -1 {
      return firstVowel;
    }
    return 0;
  }

  // ---------------------------------------------------------------------
  // Rendering

  /** The letter `c` with the mark of tone `t`; `'\0'` when `c` takes no mark. */
  function Mark(c: char, t: byte): char
  {
    match c
    case 'a' => if t == 1 then 'ā' else if t == 2 then 'á' else if t == 3 then 'ǎ' else if t == 4 then 'à' else '\0'
    case 'e' => if t == 1 then 'ē' else if t == 2 then 'é' else if t == 3 then 'ě' else if t == 4 then 'è' else '\0'
    case 'i' => if t == 1 then 'ī' else if t == 2 then 'í' else if t == 3 then 'ǐ' else if t == 4 then 'ì' else '\0'
    case 'o' => if t == 1 then 'ō' else if t == 2 then 'ó' else if t == 3 then 'ǒ' else if t == 4 then 'ò' else '\0'
    case 'u' => if t == 1 then 'ū' else if t == 2 then 'ú' else if t == 3 then 'ǔ' else if t == 4 then 'ù' else '\0'
    case 'ü' => if t == 1 then 'ǖ' else if t == 2 then 'ǘ' else if t == 3 then 'ǚ' else if t == 4 then 'ǜ' else '\0'
    case 'n' => if t == 1 then 'n' else if t == 2 then 'ń' else if t == 3 then 'ň' else if t == 4 then 'ǹ' else '\0'
    case _ => '\0'
  }

  /** The marked letters `Advance` accepts: the bare letter and the tone each one sets. */
  function Unmark(c: char): Option<(char, byte)>
  {
    match c
    case 'ā' => Some(('a', Flat)) case 'á' => Some(('a', Rising)) case 'ǎ' => Some(('a', Low)) case 'à' => Some(('a', Falling))
    case 'ē' => Some(('e', Flat)) case 'é' => Some(('e', Rising)) case 'ě' => Some(('e', Low)) case 'è' => Some(('e', Falling))
    case 'ī' => Some(('i', Flat)) case 'í' => Some(('i', Rising)) case 'ǐ' => Some(('i', Low)) case 'ì' => Some(('i', Falling))
    case 'ō' => Some(('o', Flat)) case 'ó' => Some(('o', Rising)) case 'ǒ' => Some(('o', Low)) case 'ò' => Some(('o', Falling))
    case 'ū' => Some(('u', Flat)) case 'ú' => Some(('u', Rising)) case 'ǔ' => Some(('u', Low)) case 'ù' => Some(('u', Falling))
    case 'ǖ' => Some(('ü', Flat)) case 'ǘ' => Some(('ü', Rising)) case 'ǚ' => Some(('ü', Low)) case 'ǜ' => Some(('ü', Falling))
    case 'ń' => Some(('n', Rising)) case 'ň' => Some(('n', Low)) case 'ǹ' => Some(('n', Falling))
    case 'ḿ' => Some(('m', Rising))
    case _ => None
  }

  /**
   * A marked letter `render` writes is read back by `Advance` as the same
   * letter with the same tone; only `n` in the first tone stays unmarked.
   */
  lemma {:induction false} MarkUnmark(c: char, t: byte)
    requires 1 <= t <= 4 && Mark(c, t) != '\0'
    ensures IsVowel(c) || c == 'n'
    ensures Unmark(Mark(c, t)) == Some((c, t)) || (c == 'n' && t == Flat && Mark(c, t) == 'n')
  {
  }

  /** `render` indexes the spelling at the tone position, so a toned syllable needs a nonempty spelling. */
  predicate Renderable(m: Machine, p: u16)
  {
    var (c, t) := Decode(p);
    t == Neutral || |m.spelling(c)| > 0
  }

  /**
   * `render`: the spelling of the sound, with the letter at the tone
   * position replaced by its marked form, and whether the syllable is
   * special; `"?"` and false when that letter takes no mark.
   */
  function Render(m: Machine, p: u16): (r: (string, bool))
    requires Renderable(m, p)
    ensures r == ("?", false) || |r.0| == |m.spelling(Decode(p).0)|
  {
    var (c, t) := Decode(p);
    var str := m.spelling(c);
    if t == Neutral then (str, m.special(c))
    else
      var pos := TonePos(str);
      var repl := Mark(str[pos], t);
      if repl != '\0' then (str[pos := repl], m.special(c)) else ("?", false)
  }

  /**
   * A neutral syllable renders as its spelling.  A toned one either renders
   * as `"?"`, exactly when the letter at the tone position takes no mark, or
   * differs from its spelling only at the tone position, where it holds a
   * letter `Advance` reads back as that letter and tone.
   */
  lemma {:induction false} RenderMarksOneLetter(m: Machine, p: u16)
    requires Renderable(m, p)
    ensures var (c, t) := Decode(p);
      var str := m.spelling(c);
      var r := Render(m, p).0;
      && (t == Neutral ==> r == str)
      && (t != Neutral ==>
            var pos := TonePos(str);
            && (r == "?" <==> !(IsVowel(str[pos]) || str[pos] == 'n'))
            && (r != "?" ==>
                  && |r| == |str|
                  && (forall k :: 0 <= k < |str| && k != pos ==> r[k] == str[k])
                  && (Unmark(r[pos]) == Some((str[pos], t)) || (str[pos] == 'n' && t == Flat && r == str))))
  {
    var (c, t) := Decode(p);
    var str := m.spelling(c);
    if t != Neutral {
      var pos := TonePos(str);
      if Mark(str[pos], t) != '\0' {
        MarkUnmark(str[pos], t);
        assert Render(m, p).0[pos] == Mark(str[pos], t);
        assert Render(m, p).0 != "?" by {
          if |str| == 1 {
            assert Mark(str[pos], t) != '?';
          }
        }
      } else {
        assert !(IsVowel(str[pos]) || str[pos] == 'n');
      }
    }
  }

  /** The tone positions in the rendering tests. */
  lemma TonePosExamples()
    ensures TonePos("tuan") == 2 && TonePos("tiao") == 2 && TonePos("lü") == 1
    ensures TonePos("pie") == 2 && TonePos("mei") == 1 && TonePos("n") == 0
  {
    assert FirstVowel("tuan") == 1 by { assert "tuan"[1..] == "uan"; }
    assert FirstVowel("tiao") == 1 by { assert "tiao"[1..] == "iao"; }
    assert FirstVowel("lü") == 1 by { assert "lü"[1..] == "ü"; }
    assert FirstVowel("pie") == 1 by { assert "pie"[1..] == "ie"; }
    assert FirstVowel("mei") == 1 by { assert "mei"[1..] == "ei"; }
    assert FirstVowel("n") == 1 by { assert "n"[1..] == ""; }
  }

  /** The rendering tests: a3, tuan4, tiaō, n2, lu:3, pie1, mei3 and r5. */
  lemma RenderExamples(m: Machine, c: u16)
    requires c * 5 + 4 <= 0xFFFF
    ensures m.spelling(c) == "a" ==> Render(m, New(c, Low)).0 == "ǎ"
    ensures m.spelling(c) == "tuan" ==> Render(m, New(c, Falling)).0 == "tuàn"
    ensures m.spelling(c) == "tiao" ==> Render(m, New(c, Flat)).0 == "tiāo"
    ensures m.spelling(c) == "n" ==> Render(m, New(c, Rising)).0 == "ń"
    ensures m.spelling(c) == "lü" ==> Render(m, New(c, Low)).0 == "lǚ"
    ensures m.spelling(c) == "pie" ==> Render(m, New(c, Flat)).0 == "piē"
    ensures m.spelling(c) == "mei" ==> Render(m, New(c, Low)).0 == "měi"
    ensures m.spelling(c) == "r" ==> Render(m, New(c, Neutral)).0 == "r"
  {
    TonePosExamples();
    DecodeNew(c, Neutral);
    DecodeNew(c, Flat);
    DecodeNew(c, Rising);
    DecodeNew(c, Low);
    DecodeNew(c, Falling);
  }

  /** `RenderMany`: the renderings one after another, with an apostrophe before every special syllable but the first. */
  function Rendered(m: Machine, ps: seq<u16>): string
    requires forall i :: 0 <= i < |ps| ==> Renderable(m, ps[i])
  {
    if ps == [] then ""
    else
      var last := Render(m, ps[|ps| - 1]);
      Rendered(m, ps[..|ps| - 1]) + (if |ps| > 1 && last.1 then "'" else "") + last.0
  }

  /** `RenderMany`: the loop of `RenderManyWriter` appending to a string builder. */
  method RenderMany(m: Machine, ps: seq<u16>) returns (buf: string)
    requires forall i :: 0 <= i < |ps| ==> Renderable(m, ps[i])
    ensures buf == Rendered(m, ps)
  {
    buf := "";
    for i := 0 to |ps|
      invariant buf == Rendered(m, ps[..i])
    {
      var (str, special) := Render(m, ps[i]);
      if i != 0 && special {
        buf := buf + "'";
      }
      buf := buf + str;
      assert ps[..i + 1][..i] == ps[..i];
    }
    assert ps[..|ps|] == ps;
  }

  /** The apostrophe rule: the first syllable never gets one, and a later special one does (the test nü'ér). */
  lemma {:induction false} RenderedApostrophe(m: Machine, p: u16, q: u16)
    requires Renderable(m, p) && Renderable(m, q)
    ensures Rendered(m, [p]) == Render(m, p).0
    ensures Render(m, q).1 ==> Rendered(m, [p, q]) == Render(m, p).0 + "'" + Render(m, q).0
    ensures !Render(m, q).1 ==> Rendered(m, [p, q]) == Render(m, p).0 + Render(m, q).0
  {
    assert [p, q][..1] == [p];
    assert [p][..0] == [];
  }

  // ---------------------------------------------------------------------
  // Parsing

  /** The fields of a `parser`: automaton state, tone so far, and whether the syllable is closed. */
  datatype ParserState = ParserState(state: int, tone: byte, done: bool)

  /** The zero value `var p parser`. */
  const Init: ParserState := ParserState(0, Neutral, false)

  /** The tone a tone digit sets: `1` to `4`, and `5` for the neutral tone. */
  function DigitTone(c: char): byte
    requires '1' <= c <= '5'
  {
    if c == '5' then Neutral else (c as int - '0' as int) as byte
  }

  /** One letter through the automaton. */
  function Move(m: Machine, s: ParserState, c: char): (bool, ParserState)
  {
    match m.next(s.state, c)
    case None => (false, s)
    case Some(n) => (true, s.(state := n))
  }

  /**
   * One call of `Advance(r)`: whether it returns true, and the fields
   * afterwards (which a false result does not always leave as they were).
   */
  function Step(m: Machine, s: ParserState, r: char): (bool, ParserState)
  {
    if s.done then (false, s)
    else
      var c := m.lower(r);
      if c == '\'' then (true, s.(done := true))
      else if '1' <= c <= '5' then
        if s.tone != 0 then (false, s.(done := true))
        else (true, s.(done := true, tone := DigitTone(c)))
      else
        match Unmark(c)
        case Some((base, t)) => if s.tone != 0 then (false, s) else Move(m, s.(tone := t), base)
        case None => Move(m, s, c)
  }

  /** `Result`: the packed syllable when the automaton state ends one. */
  function ResultOf(m: Machine, s: ParserState): Option<u16>
  {
    match m.sound(s.state)
    case None => None
    case Some(snd) => Some(New(snd, s.tone))
  }

  /** A closed syllable takes no further letter and nothing changes. */
  lemma {:induction false} StepAfterDone(m: Machine, s: ParserState, r: char)
    requires s.done
    ensures Step(m, s, r) == (false, s)
  {
  }

  /** An apostrophe or a tone digit closes the syllable, whether the call succeeds or not. */
  lemma {:induction false} StepCloses(m: Machine, s: ParserState, r: char)
    requires !s.done && (m.lower(r) == '\'' || '1' <= m.lower(r) <= '5')
    ensures Step(m, s, r).1.done
  {
  }

  /** Once a nonzero tone is recorded, a tone digit or a marked letter is rejected and the tone stays. */
  lemma {:induction false} ToneOnce(m: Machine, s: ParserState, r: char)
    requires s.tone != 0
    requires '1' <= m.lower(r) <= '5' || Unmark(m.lower(r)).Some?
    ensures !Step(m, s, r).0 && Step(m, s, r).1.tone == s.tone
  {
  }

  /** The state after `Advance` on every letter of `rs` from the zero value, `None` if one returns false. */
  function Walk(m: Machine, rs: string): Option<ParserState>
    decreases |rs|
  {
    if rs == [] then Some(Init)
    else
      match Walk(m, rs[..|rs| - 1])
      case None => None
      case Some(s) =>
        var (ok, t) := Step(m, s, rs[|rs| - 1]);
        if ok then Some(t) else None
  }

  /** The tone recorded along a walk is one of the five tones. */
  lemma {:induction false} WalkTone(m: Machine, rs: string)
    requires Walk(m, rs).Some?
    ensures Walk(m, rs).value.tone <= 4
    decreases |rs|
  {
    if rs != [] {
      WalkTone(m, rs[..|rs| - 1]);
    }
  }

  /** After a closed syllable every further letter is rejected: no longer walk succeeds. */
  lemma {:induction false} WalkAfterDone(m: Machine, rs: string, ts: string)
    requires Walk(m, rs).Some? && Walk(m, rs).value.done
    requires ts != []
    ensures Walk(m, rs + ts).None?
    decreases |ts|
  {
    var u := rs + ts;
    assert u[..|u| - 1] == rs + ts[..|ts| - 1];
    if |ts| == 1 {
      assert u[..|u| - 1] == rs;
    } else {
      WalkAfterDone(m, rs, ts[..|ts| - 1]);
    }
  }

  /** A walk that fails stays failed on every longer prefix. */
  lemma {:induction false} WalkFailsOn(m: Machine, str: string, i: nat, j: nat)
    requires i <= j <= |str|
    requires Walk(m, str[..i]).None?
    ensures Walk(m, str[..j]).None?
    decreases j - i
  {
    if i < j {
      assert str[..i + 1][..i] == str[..i];
      WalkFailsOn(m, str, i + 1, j);
    }
  }

  /** `Result` reports the walked sound and tone, when the packing does not wrap. */
  lemma {:induction false} ResultDecodes(m: Machine, rs: string, snd: u16)
    requires Walk(m, rs).Some? && m.sound(Walk(m, rs).value.state) == Some(snd)
    requires snd * 5 + 4 <= 0xFFFF
    ensures ResultOf(m, Walk(m, rs).value).Some?
    ensures Decode(ResultOf(m, Walk(m, rs).value).value) == (snd, Walk(m, rs).value.tone)
  {
    WalkTone(m, rs);
    DecodeNew(snd, Walk(m, rs).value.tone);
  }

  /** The first `k` letters walk to a state that ends a syllable. */
  predicate ValidAt(m: Machine, str: string, k: nat)
  {
    0 < k <= |str| && Walk(m, str[..k]).Some? && ResultOf(m, Walk(m, str[..k]).value).Some?
  }

  /** The longest valid prefix length up to `n`, 0 when there is none. */
  function LastValid(m: Machine, str: string, n: nat): (k: nat)
    requires n <= |str|
    ensures k <= n
    ensures k > 0 ==> ValidAt(m, str, k)
    ensures forall j :: k < j <= n ==> !ValidAt(m, str, j)
  {
    if n == 0 then 0
    else if ValidAt(m, str, n) then n
    else LastValid(m, str, n - 1)
  }

  /** The syllable the first `k` letters spell. */
  function Found(m: Machine, str: string, k: nat): u16
    requires ValidAt(m, str, k)
  {
    ResultOf(m, Walk(m, str[..k]).value).value
  }

  /** What `Parse` promises: the syllable of the longest valid prefix and the suffix after it, or `None`. */
  function ParseSpec(m: Machine, str: string): (r: Option<(u16, string)>)
    ensures r.None? <==> forall j :: 0 < j <= |str| ==> !ValidAt(m, str, j)
    ensures r.Some? ==> |r.value.1| < |str| && r.value.1 == str[|str| - |r.value.1|..]
  {
    var k := LastValid(m, str, |str|);
    if k == 0 then None
    else Some((Found(m, str, k), str[k..]))
  }

  /** A `parser`, whose `Advance` and `setTone` update its fields in place. */
  class Parser {
    var state: int
    var tone: byte
    var done: bool

    /** The fields as a state. */
    function Current(): ParserState
      reads this
    {
      ParserState(state, tone, done)
    }

    /** The zero value. */
    constructor ()
      ensures Current() == Init
    {
      state, tone, done := 0, Neutral, false;
    }

    /** `setTone`: records `t` only while no nonzero tone is recorded. */
    method SetTone(t: byte) returns (ok: bool)
      modifies this
      ensures ok <==> old(tone) == 0
      ensures tone == (if ok then t else old(tone))
      ensures state == old(state) && done == old(done)
    {
      if tone != 0 {
        return false;
      }
      tone := t;
      return true;
    }

    /** `Advance`: one letter of the syllable. */
    method Advance(m: Machine, r: char) returns (ok: bool)
      modifies this
      ensures (ok, Current()) == Step(m, old(Current()), r)
    {
      if done {
        return false;
      }
      var c := m.lower(r);
      if c == '\'' {
        done := true;
        return true;
      }
      if '1' <= c <= '5' {
        done := true;
        ok := SetTone(DigitTone(c));
        return;
      }
      var u := Unmark(c);
      if u.Some? {
        var toned := SetTone(u.value.1);
        if !toned {
          return false;
        }
        c := u.value.0;
      }
      var n := m.next(state, c);
      if n.None? {
        return false;
      }
      state := n.value;
      return true;
    }

    /** `Result`: whether the state ends a syllable, and the packed syllable with the recorded tone. */
    method Result(m: Machine) returns (ok: bool, p: u16)
      ensures ok <==> ResultOf(m, Current()).Some?
      ensures ok ==> p == ResultOf(m, Current()).value
      ensures !ok ==> p == 0
    {
      var snd := m.sound(state);
      if snd.None? {
        return false, 0;
      }
      return true, New(snd.value, tone);
    }
  }

  /** Walking one more letter of `str` is one more `Advance`. */
  lemma {:induction false} WalkStep(m: Machine, str: string, i: nat, s: ParserState)
    requires i < |str| && Walk(m, str[..i]) == Some(s)
    ensures Walk(m, str[..i + 1]) == (if Step(m, s, str[i]).0 then Some(Step(m, s, str[i]).1) else None)
  {
    assert str[..i + 1][..i] == str[..i];
  }

  /** Once the walk has failed on `str[..i + 1]`, no prefix longer than `i` is valid. */
  lemma {:induction false} NoValidAfterFailure(m: Machine, str: string, i: nat)
    requires i < |str| && Walk(m, str[..i + 1]).None?
    ensures LastValid(m, str, |str|) == LastValid(m, str, i)
  {
    forall j | i < j <= |str|
      ensures !ValidAt(m, str, j)
    {
      WalkFailsOn(m, str, i + 1, j);
    }
    LastValidUpTo(m, str, i, |str|);
  }

  /** `LastValid` does not move while no prefix between `i` and `n` is valid. */
  lemma {:induction false} LastValidUpTo(m: Machine, str: string, i: nat, n: nat)
    requires i <= n <= |str|
    requires forall j :: i < j <= n ==> !ValidAt(m, str, j)
    ensures LastValid(m, str, n) == LastValid(m, str, i)
    decreases n - i
  {
    if i < n {
      LastValidUpTo(m, str, i, n - 1);
    }
  }

  /** One more letter that walks to `t` makes `i + 1` the last valid length exactly when `t` ends a syllable. */
  lemma {:induction false} LastValidNext(m: Machine, str: string, i: nat, t: ParserState)
    requires i < |str| && Walk(m, str[..i + 1]) == Some(t)
    ensures LastValid(m, str, i + 1) == (if ResultOf(m, t).Some? then i + 1 else LastValid(m, str, i))
    ensures ResultOf(m, t).Some? ==> Found(m, str, i + 1) == ResultOf(m, t).value
  {
  }

  /**
   * `Parse`: feeds letters to a fresh parser until `Advance` fails,
   * remembering the last prefix after which `Result` was valid.  It returns
   * the longest valid prefix's syllable and the rest, or false, 0 and an
   * empty rest.
   */
  method Parse(m: Machine, str: string) returns (ok: bool, result: u16, rest: string)
    ensures ok <==> ParseSpec(m, str).Some?
    ensures ok ==> (result, rest) == ParseSpec(m, str).value
    ensures !ok ==> result == 0 && rest == []
  {
    var p := new Parser();
    var lastIdx := 0;
    var lastResult: u16 := 0;
    var i := 0;
    while i < |str|
      invariant 0 <= i <= |str|
      invariant Walk(m, str[..i]) == Some(p.Current())
      invariant lastIdx == LastValid(m, str, i)
      invariant lastIdx > 0 ==> lastResult == Found(m, str, lastIdx)
    {
      ghost var before := p.Current();
      var adv := p.Advance(m, str[i]);
      WalkStep(m, str, i, before);
      if !adv {
        NoValidAfterFailure(m, str, i);
        break;
      }
      LastValidNext(m, str, i, p.Current());
      var found, res := p.Result(m);
      if found {
        lastIdx := i + 1;
        lastResult := res;
      }
      i := i + 1;
    }
    assert lastIdx == LastValid(m, str, |str|);
    if lastIdx == 0 {
      return false, 0, [];
    }
    return true, lastResult, str[lastIdx..];
  }

  // ---------------------------------------------------------------------
  // Parsing many syllables

  /**
   * `ParseMany` as written: on a parse failure it returns the rest that
   * `Parse` returned, which is empty.
   */
  function ParseManyAsWritten(m: Machine, str: string): (seq<u16>, string)
    decreases |str|
  {
    if str == [] then ([], [])
    else
      match ParseSpec(m, str)
      case None => ([], [])
      case Some((p, rest)) =>
        var (ps, tail) := ParseManyAsWritten(m, rest);
        ([p] + ps, tail)
  }

  /** As written, the returned rest is empty on every input: a failure looks like complete success. */
  lemma {:induction false} ParseManyLosesRest(m: Machine, str: string)
    ensures ParseManyAsWritten(m, str).1 == []
    decreases |str|
  {
    if str != [] && ParseSpec(m, str).Some? {
      ParseManyLosesRest(m, ParseSpec(m, str).value.1);
    }
  }

  /**
   * The input "1": the tone digit closes an empty syllable, the start state
   * ends no syllable, so nothing parses, yet the rest returned is empty just
   * as for the empty input.
   */
  lemma ParseManyDigitOne(m: Machine)
    requires m.lower('1') == '1' && m.sound(0).None?
    ensures ParseSpec(m, "1").None?
    ensures ParseManyAsWritten(m, "1") == ParseManyAsWritten(m, "")
    ensures ParseManyIntended(m, "1") == ([], "1")
  {
    assert "1"[..1] == "1";
    assert "1"[..0] == "";
    assert Walk(m, "1") == Some(ParserState(0, Flat, true));
    assert !ValidAt(m, "1", 1);
  }

  /** `ParseMany` as evidently intended: on a parse failure the unparsed suffix is returned. */
  function ParseManyIntended(m: Machine, str: string): (seq<u16>, string)
    decreases |str|
  {
    if str == [] then ([], [])
    else
      match ParseSpec(m, str)
      case None => ([], str)
      case Some((p, rest)) =>
        var (ps, tail) := ParseManyIntended(m, rest);
        ([p] + ps, tail)
  }

  /**
   * The intended rest is a suffix of the input; it is empty exactly when
   * everything was parsed, and otherwise no prefix of it parses.
   */
  lemma {:induction false} ParseManyIntendedRest(m: Machine, str: string)
    ensures var rest := ParseManyIntended(m, str).1;
      && |rest| <= |str| && rest == str[|str| - |rest|..]
      && (rest != [] ==> ParseSpec(m, rest).None?)
    decreases |str|
  {
    if str != [] && ParseSpec(m, str).Some? {
      ParseManyIntendedRest(m, ParseSpec(m, str).value.1);
    }
  }

  /** `ParseMany`: applies `Parse` until the input is used up or a parse fails. */
  method ParseMany(m: Machine, str: string) returns (result: seq<u16>, rest: string)
    ensures (result, rest) == ParseManyAsWritten(m, str)
  {
    result := [];
    var s := str;
    while true
      invariant ParseManyAsWritten(m, str).0 == result + ParseManyAsWritten(m, s).0
      invariant ParseManyAsWritten(m, str).1 == ParseManyAsWritten(m, s).1
      decreases |s|
    {
      if |s| == 0 {
        assert result + ParseManyAsWritten(m, s).0 == result;
        return result, [];
      }
      var ok, p, r := Parse(m, s);
      if !ok {
        assert result + ParseManyAsWritten(m, s).0 == result;
        return result, r;
      }
      assert ParseManyAsWritten(m, s).0 == [p] + ParseManyAsWritten(m, r).0;
      assert ParseManyAsWritten(m, s).1 == ParseManyAsWritten(m, r).1;
      result := result + [p];
      s := r;
    }
  }
}
