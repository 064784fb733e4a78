/** The REPL's line editor (`InputState`) and the edit it hands to the
    calculator after every keystroke that changed the line. */
module Repl {
  import opened Wrappers
  import InputBuffer
  import Calculator

  type Byte = InputBuffer.Byte

  datatype InputAction =
    | InsertChar(c: Byte)
    | Backspace
    | Delete
    | MoveCursorLeft
    | MoveCursorRight
    | MoveCursorHome
    | MoveCursorEnd
    | SetContent(text: seq<Byte>)

  /** The edited line and the cursor, a position between characters. */
  datatype InputState = InputState(content: seq<Byte>, cursor: nat)

  predicate Valid(s: InputState) {
    s.cursor <= |s.content|
  }

  /** `InputState::new`, without the highlighting query. */
  function NewState(): (s: InputState)
    ensures Valid(s) && s.content == [] && s.cursor == 0
  {
    InputState([], 0)
  }

  /** The line with the character at `i` removed. */
  function RemoveAt(s: seq<Byte>, i: nat): (r: seq<Byte>)
    requires i < |s|
    ensures |r| == |s| - 1
    ensures forall k :: 0 <= k < i ==> r[k] == s[k]
    ensures forall k :: i <= k < |r| ==> r[k] == s[k + 1]
  {
    s[..i] + s[i + 1..]
  }

  /** The line with `c` inserted at `i`. */
  function InsertAt(s: seq<Byte>, i: nat, c: Byte): (r: seq<Byte>)
    requires i <= |s|
    ensures |r| == |s| + 1 && r[i] == c
    ensures forall k :: 0 <= k < i ==> r[k] == s[k]
    ensures forall k :: i < k < |r| ==> r[k] == s[k - 1]
  {
    s[..i] + [c] + s[i..]
  }

  /** `handle_action`: the new state and whether the REPL should
      re-evaluate. The flag is set exactly when the state changed, except
      that setting the content always sets it. */
  function HandleAction(s: InputState, a: InputAction): (r: (InputState, bool))
    requires Valid(s)
    ensures Valid(r.0)
    ensures !r.1 ==> r.0 == s
    ensures !a.SetContent? ==> (r.1 <==> r.0 != s)
    ensures a.SetContent? ==> r.1 && r.0.content == a.text && r.0.cursor == |a.text|
    ensures (a.MoveCursorLeft? || a.MoveCursorRight? || a.MoveCursorHome? || a.MoveCursorEnd?) ==>
      r.0.content == s.content
    // Typing puts the character at the cursor and steps past it.
    ensures a.InsertChar? ==>
      && r.1 && r.0.cursor == s.cursor + 1
      && |r.0.content| == |s.content| + 1 && r.0.content[s.cursor] == a.c
      && r.0.content[..s.cursor] == s.content[..s.cursor]
      && r.0.content[s.cursor + 1..] == s.content[s.cursor..]
    // Backspace removes the character before the cursor; at the start of
    // the line it does nothing.
    ensures a.Backspace? && s.cursor == 0 ==> r == (s, false)
    ensures a.Backspace? && s.cursor > 0 ==>
      && r.1 && r.0.cursor == s.cursor - 1
      && |r.0.content| == |s.content| - 1
      && r.0.content[..s.cursor - 1] == s.content[..s.cursor - 1]
      && r.0.content[s.cursor - 1..] == s.content[s.cursor..]
    // Delete removes the character under the cursor; at the end of the line
    // it does nothing.
    ensures a.Delete? && s.cursor == |s.content| ==> r == (s, false)
    ensures a.Delete? && s.cursor < |s.content| ==>
      && r.1 && r.0.cursor == s.cursor
      && |r.0.content| == |s.content| - 1
      && r.0.content[..s.cursor] == s.content[..s.cursor]
      && r.0.content[s.cursor..] == s.content[s.cursor + 1..]
    // Left and right move by one character, and stop at the ends.
    ensures a.MoveCursorLeft? ==> r.0.cursor == if s.cursor > 0 then s.cursor - 1 else 0
    ensures a.MoveCursorRight? ==> r.0.cursor == if s.cursor < |s.content| then s.cursor + 1 else s.cursor
    ensures a.MoveCursorHome? ==> r.0.cursor == 0
    ensures a.MoveCursorEnd? ==> r.0.cursor == |s.content|
  {
    match a
    case InsertChar(c) => (InputState(InsertAt(s.content, s.cursor, c), s.cursor + 1), true)
    case Backspace =>
      if s.cursor > 0 then (InputState(RemoveAt(s.content, s.cursor - 1), s.cursor - 1), true) else (s, false)
    case Delete =>
      if s.cursor < |s.content| then (InputState(RemoveAt(s.content, s.cursor), s.cursor), true) else (s, false)
    case MoveCursorLeft => if s.cursor > 0 then (s.(cursor := s.cursor - 1), true) else (s, false)
    case MoveCursorRight => if s.cursor < |s.content| then (s.(cursor := s.cursor + 1), true) else (s, false)
    case MoveCursorHome => if s.cursor != 0 then (s.(cursor := 0), true) else (s, false)
    case MoveCursorEnd => if s.cursor != |s.content| then (s.(cursor := |s.content|), true) else (s, false)
    case SetContent(text) => (InputState(text, |text|), true)
  }

  /** Backspace undoes typing a character. */
  lemma BackspaceUndoesInsert(s: InputState, c: Byte)
    requires Valid(s)
    ensures HandleAction(HandleAction(s, InsertChar(c)).0, Backspace) == (s, true)
  {
    var t := HandleAction(s, InsertChar(c)).0;
    assert RemoveAt(t.content, s.cursor) == s.content;
  }

  /** Typing back the deleted character and stepping left undoes Delete. */
  lemma InsertAndLeftUndoDelete(s: InputState)
    requires Valid(s) && s.cursor < |s.content|
    ensures var d := HandleAction(s, Delete).0;
      var i := HandleAction(d, InsertChar(s.content[s.cursor])).0;
      HandleAction(i, MoveCursorLeft) == (s, true)
  {
    var d := HandleAction(s, Delete).0;
    assert InsertAt(d.content, s.cursor, s.content[s.cursor]) == s.content;
  }

  /** Left and Right undo each other wherever both can move. */
  lemma LeftRightInverse(s: InputState)
    requires Valid(s)
    ensures s.cursor > 0 ==> HandleAction(HandleAction(s, MoveCursorLeft).0, MoveCursorRight) == (s, true)
    ensures s.cursor < |s.content| ==> HandleAction(HandleAction(s, MoveCursorRight).0, MoveCursorLeft) == (s, true)
  {
  }

  /** Home and End reach the ends of the line, and a second press reports
      no change. */
  lemma HomeEndIdempotent(s: InputState)
    requires Valid(s)
    ensures var h := HandleAction(s, MoveCursorHome).0;
      h.cursor == 0 && HandleAction(h, MoveCursorHome) == (h, false)
    ensures var e := HandleAction(s, MoveCursorEnd).0;
      e.cursor == |s.content| && HandleAction(e, MoveCursorEnd) == (e, false)
  {
  }

  /** The number of leading characters two lines share: `chars().zip(..)
      .take_while(equal).count()`. */
  function CommonPrefix(a: seq<Byte>, b: seq<Byte>): (n: nat)
    ensures n <= |a| && n <= |b|
    ensures a[..n] == b[..n]
    ensures n < |a| && n < |b| ==> a[n] != b[n]
  {
    if |a| == 0 || |b| == 0 || a[0] != b[0] then 0
    else
      var m := CommonPrefix(a[1..], b[1..]);
      assert a[..m + 1] == [a[0]] + a[1..][..m];
      assert b[..m + 1] == [b[0]] + b[1..][..m];
      1 + m
  }

  /** Applying the REPL's edit (start at the common prefix, old end at the
      old length, new end at the new length) to a buffer holding the
      previous line leaves exactly the new line in the buffer. */
  lemma {:induction false} EditReproducesContent(buffer: InputBuffer.Buffer, content: seq<Byte>)
    ensures var cp := CommonPrefix(content, buffer.bytes);
      && InputBuffer.UpdateRequires(buffer, content, cp, |buffer.bytes|, |content|)
      && InputBuffer.Update(buffer, content, cp, |buffer.bytes|, |content|).bytes == content
  {
    var cp := CommonPrefix(content, buffer.bytes);
    InputBuffer.UpdateReproducesInput(buffer, content, cp, |buffer.bytes|);
  }

  // ===== The REPL loop =====

  /** What the REPL loop keeps between keystrokes. */
  datatype Session = Session(input: InputState, lastInput: seq<Byte>, calculator: Calculator.Calculator)

  /** The loop's invariant: the cursor is on the line, and the calculator's
      buffer and the remembered line both equal the line on screen. */
  predicate SessionInvariant(s: Session) {
    Valid(s.input) && s.lastInput == s.input.content && s.calculator.buffer.bytes == s.lastInput
  }

  function NewSession(): (s: Session)
    ensures SessionInvariant(s)
  {
    Session(NewState(), [], Calculator.New())
  }

  /** One action in the loop: edit the line; if it changed, hand the
      calculator the edit against the previous line and remember the new
      line. `out` is what the parse engine, back end and clock contribute
      to that update. */
  function Step(s: Session, a: InputAction, env: Calculator.Environment, out: Calculator.Outside)
    : (r: (Session, Option<Calculator.Outcome>))
    requires SessionInvariant(s)
    ensures SessionInvariant(r.0)
    ensures r.0.input == HandleAction(s.input, a).0
    ensures r.1.Some? <==> HandleAction(s.input, a).1
    ensures r.1.None? ==> r.0 == s
    // A changed line is handed to the calculator as the edit from the
    // common prefix to the ends of the previous and the new line, and the
    // session keeps the calculator that update leaves.
    ensures r.1.Some? ==>
      r.1.value == Calculator.UpdateInput(s.calculator, r.0.input.content,
                                          CommonPrefix(r.0.input.content, s.lastInput),
                                          |s.lastInput|, |r.0.input.content|, env, out)
    ensures r.1.Some? ==> r.0.calculator == r.1.value.state
  {
    var (input, changed) := HandleAction(s.input, a);
    if !changed then (s, None)
    else
      var cp := CommonPrefix(input.content, s.lastInput);
      EditReproducesContent(s.calculator.buffer, input.content);
      var o := Calculator.UpdateInput(s.calculator, input.content, cp, |s.lastInput|, |input.content|, env, out);
      (Session(input, input.content, o.state), Some(o))
  }

  /** Every run of actions keeps the invariant, so every update the loop
      issues satisfies the buffer's requirements. */
  function Run(s: Session, actions: seq<InputAction>, env: Calculator.Environment, outs: seq<Calculator.Outside>)
    : (r: Session)
    requires SessionInvariant(s) && |outs| == |actions|
    ensures SessionInvariant(r)
    decreases |actions|
  {
    if |actions| == 0 then s
    else Run(Step(s, actions[0], env, outs[0]).0, actions[1..], env, outs[1..])
  }

  /** The line after typing `text` one character at a time. */
  function TypeAll(s: InputState, text: seq<Byte>): (r: InputState)
    requires Valid(s)
    ensures Valid(r)
    decreases |text|
  {
    if |text| == 0 then s else TypeAll(HandleAction(s, InsertChar(text[0])).0, text[1..])
  }

  /** Typing a line character by character into the line editor leaves
      exactly that line on screen, with the cursor at its end. */
  lemma {:induction false} TypingBuildsTheLine(s: InputState, text: seq<Byte>)
    requires Valid(s) && s.cursor == |s.content|
    ensures TypeAll(s, text) == InputState(s.content + text, |s.content| + |text|)
    decreases |text|
  {
    if |text| > 0 {
      var t := HandleAction(s, InsertChar(text[0])).0;
      assert t.content == s.content + [text[0]];
      TypingBuildsTheLine(t, text[1..]);
      assert t.content + text[1..] == s.content + text;
    }
  }
}
