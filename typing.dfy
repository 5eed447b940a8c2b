/** The typing effect: a hook that types one of several texts character by character,
    pauses, deletes it again and moves on to the next text, for ever. Each effect firing
    performs one step of the state machine modelled here; the timers that decide when a
    step happens are not modelled. */
module TypingEffect {

  /** The four state variables of the hook. */
  datatype State = State(textIndex: nat, text: string, isTyping: bool, charIndex: nat)

  /** The initial `useState` values. */
  const Initial := State(0, "", true, 0)

  /** `prev.slice(0, -1)`: the last character dropped (empty stays empty). */
  function DropLast(s: string): (r: string)
    ensures |s| > 0 ==> r == s[..|s| - 1]
    ensures |s| == 0 ==> r == []
  {
    if |s| > 0 then s[..|s| - 1] else []
  }

  /** The state after one effect firing. With no texts the effect returns at once. */
  function Next(texts: seq<string>, s: State): State
    requires texts == [] || s.textIndex < |texts|
  {
    if texts == [] then s
    else
      var full := texts[s.textIndex];
      if s.isTyping then
        if s.charIndex < |full| then
          s.(text := s.text + [full[s.charIndex]], charIndex := s.charIndex + 1)
        else
          s.(isTyping := false)
      else if s.charIndex > 0 then
        s.(text := DropLast(s.text), charIndex := s.charIndex - 1)
      else
        s.(textIndex := (s.textIndex + 1) % |texts|, isTyping := true)
  }

  /** The shown text is the first `charIndex` characters of the current text. */
  ghost predicate Inv(texts: seq<string>, s: State) {
    s.textIndex < |texts|
    && s.charIndex <= |texts[s.textIndex]|
    && s.text == texts[s.textIndex][..s.charIndex]
  }

  /** The hook's first state shows nothing of the first text. */
  lemma InitialInv(texts: seq<string>)
    requires texts != []
    ensures Inv(texts, Initial)
  {
  }

  /** Every step keeps the shown text a prefix of the current text. */
  lemma StepInv(texts: seq<string>, s: State)
    requires Inv(texts, s)
    ensures Inv(texts, Next(texts, s))
  {
    var full := texts[s.textIndex];
    if s.isTyping && s.charIndex < |full| {
      assert full[..s.charIndex] + [full[s.charIndex]] == full[..s.charIndex + 1];
    } else if !s.isTyping && s.charIndex > 0 {
      assert full[..s.charIndex][..s.charIndex - 1] == full[..s.charIndex - 1];
    }
  }

  /** Typing below full length shows one more character of the current text. */
  lemma TypeChar(texts: seq<string>, s: State)
    requires Inv(texts, s) && s.isTyping && s.charIndex < |texts[s.textIndex]|
    ensures var r := Next(texts, s);
            r.text == texts[s.textIndex][..s.charIndex + 1] && |r.text| == |s.text| + 1
            && r.charIndex == s.charIndex + 1 && r.isTyping && r.textIndex == s.textIndex
  {
    var full := texts[s.textIndex];
    assert full[..s.charIndex] + [full[s.charIndex]] == full[..s.charIndex + 1];
  }

  /** Typing at full length switches to deleting with the whole text shown. */
  lemma StartDeleting(texts: seq<string>, s: State)
    requires Inv(texts, s) && s.isTyping && s.charIndex == |texts[s.textIndex]|
    ensures var r := Next(texts, s);
            r.text == texts[s.textIndex] && !r.isTyping
            && r.charIndex == s.charIndex && r.textIndex == s.textIndex
  {
    assert texts[s.textIndex][..s.charIndex] == texts[s.textIndex];
  }

  /** Deleting above zero shows one character less of the current text. */
  lemma DeleteChar(texts: seq<string>, s: State)
    requires Inv(texts, s) && !s.isTyping && s.charIndex > 0
    ensures var r := Next(texts, s);
            r.text == texts[s.textIndex][..s.charIndex - 1] && |r.text| + 1 == |s.text|
            && r.charIndex == s.charIndex - 1 && !r.isTyping && r.textIndex == s.textIndex
  {
    var full := texts[s.textIndex];
    assert full[..s.charIndex][..s.charIndex - 1] == full[..s.charIndex - 1];
  }

  /** Deleting at zero moves to the next text, wrapping after the last, and resumes
      typing. */
  lemma NextText(texts: seq<string>, s: State)
    requires Inv(texts, s) && !s.isTyping && s.charIndex == 0
    ensures var r := Next(texts, s);
            r.text == [] && r.charIndex == 0 && r.isTyping
            && (s.textIndex + 1 < |texts| ==> r.textIndex == s.textIndex + 1)
            && (s.textIndex + 1 == |texts| ==> r.textIndex == 0)
  {
  }

  /** `k` effect firings; the invariant holds after any number of them. */
  function Steps(texts: seq<string>, s: State, k: nat): (r: State)
    requires Inv(texts, s)
    ensures Inv(texts, r)
    decreases k
  {
    if k == 0 then s
    else
      StepInv(texts, s);
      Steps(texts, Next(texts, s), k - 1)
  }

  /** From any typed prefix, typing completes the current text. */
  lemma {:induction false} TypeRest(texts: seq<string>, ti: nat, c: nat)
    requires ti < |texts| && c <= |texts[ti]|
    ensures var s := State(ti, texts[ti][..c], true, c);
            Inv(texts, s) && Steps(texts, s, |texts[ti]| - c) == State(ti, texts[ti], true, |texts[ti]|)
    decreases |texts[ti]| - c
  {
    var full := texts[ti];
    if c < |full| {
      assert full[..c] + [full[c]] == full[..c + 1];
      TypeRest(texts, ti, c + 1);
    } else {
      assert full[..c] == full;
    }
  }

  /** From any typed prefix, deleting empties the shown text. */
  lemma {:induction false} DeleteRest(texts: seq<string>, ti: nat, c: nat)
    requires ti < |texts| && c <= |texts[ti]|
    ensures var s := State(ti, texts[ti][..c], false, c);
            Inv(texts, s) && Steps(texts, s, c) == State(ti, [], false, 0)
  {
    if c > 0 {
      var full := texts[ti];
      assert full[..c][..c - 1] == full[..c - 1];
      DeleteRest(texts, ti, c - 1);
    }
  }

  /** One full cycle: starting to type text `ti`, after typing it, pausing, deleting it
      and advancing, the hook starts typing the next text. */
  lemma {:induction false} Cycle(texts: seq<string>, ti: nat)
    requires ti < |texts|
    ensures var len := |texts[ti]|;
            var s := State(ti, [], true, 0);
            Inv(texts, s) && Steps(texts, s, 2 * len + 2) == State((ti + 1) % |texts|, [], true, 0)
  {
    var len := |texts[ti]|;
    var full := texts[ti];
    var s := State(ti, [], true, 0);
    assert full[..0] == [];
    TypeRest(texts, ti, 0);
    var typed := State(ti, full, true, len);
    StepsSplit(texts, s, len, len + 2);
    assert full[..len] == full;
    var deleting := State(ti, full[..len], false, len);
    assert Next(texts, typed) == deleting;
    StepsSplit(texts, typed, 1, len + 1);
    DeleteRest(texts, ti, len);
    StepsSplit(texts, deleting, len, 1);
  }

  /** Taking `a + b` steps is taking `a` steps and then `b` more. */
  lemma {:induction false} StepsSplit(texts: seq<string>, s: State, a: nat, b: nat)
    requires Inv(texts, s)
    ensures Steps(texts, s, a + b) == Steps(texts, Steps(texts, s, a), b)
    decreases a
  {
    if a > 0 {
      StepInv(texts, s);
      StepsSplit(texts, Next(texts, s), a - 1, b);
    }
  }

  // ---------------------------------------------------------------------------
  // The hook
  // ---------------------------------------------------------------------------

  /** The hook instance: the texts it was given and its four state variables. */
  class TypingHook {
    const texts: seq<string>
    var currentTextIndex: nat
    var currentText: string
    var isTyping: bool
    var charIndex: nat

    function Current(): State
      reads this
    {
      State(currentTextIndex, currentText, isTyping, charIndex)
    }

    /** With no texts the hook stays in its initial state; otherwise the invariant holds. */
    ghost predicate Valid()
      reads this
    {
      if texts == [] then Current() == Initial else Inv(texts, Current())
    }

    constructor(texts: seq<string>)
      ensures this.texts == texts && Current() == Initial && Valid()
    {
      this.texts := texts;
      currentTextIndex := 0;
      currentText := "";
      isTyping := true;
      charIndex := 0;
      if texts != [] {
        InitialInv(texts);
      }
    }

    /** One effect firing. */
    method Step()
      requires Valid()
      modifies this
      ensures Current() == Next(texts, old(Current()))
      ensures Valid()
    {
      if texts == [] {
        return;
      }
      StepInv(texts, Current());
      var currentFullText := texts[currentTextIndex];
      if isTyping {
        if charIndex < |currentFullText| {
          currentText := currentText + [currentFullText[charIndex]];
          charIndex := charIndex + 1;
        } else {
          isTyping := false;
        }
      } else {
        if charIndex > 0 {
          currentText := DropLast(currentText);
          charIndex := charIndex - 1;
        } else {
          currentTextIndex := (currentTextIndex + 1) % |texts|;
          isTyping := true;
        }
      }
    }

    /** The hook's return value: always a prefix of the current text, and empty when there
        are no texts. */
    function Output(): (r: string)
      reads this
      requires Valid()
      ensures texts == [] ==> r == []
      ensures texts != [] ==> currentTextIndex < |texts| && r <= texts[currentTextIndex]
    {
      currentText
    }
  }
}
