/** The live editor's variables and the handlers that change them.

    `Editor` updates its lines, caret and history in place, as the page
    does; each method is tied to a function on `State`. What the page reads
    from the document (the selection, the caret's offset, a line's text)
    and the clock are parameters. */
module Editor {
  import opened Wrappers
  import opened Decimals
  import opened LineText
  import opened Markup

  /** How many snapshots undo keeps, and how long a pause ends a burst of
      typing, in milliseconds. */
  const UNDO_CAP: nat := 200
  const PAUSE: int := 600

  datatype Snap = Snap(lines: seq<string>, active: Option<nat>, caret: nat)

  datatype State = State(
    lines: seq<string>,
    active: Option<nat>,
    caret: nat,
    undo: seq<Snap>,
    redo: seq<Snap>,
    lastEdit: int,
    lastLine: Option<nat>)

  function Shot(s: State): Snap {
    Snap(s.lines, s.active, s.caret)
  }

  /** The page as it is opened on a text. */
  function Opened(text: string): State {
    State(Split(text), None, 0, [], [], 0, None)
  }

  function Distance(x: int, y: int): nat {
    if x < y then y - x else x - y
  }

  /** The nearest there is from 0 to `top`. */
  function Clamp(x: int, top: nat): (r: nat)
    ensures r <= top && forall y: nat | y <= top :: Distance(x, r) <= Distance(x, y)
  {
    if x < 0 then 0 else if x > top then top else x
  }

  // ---- history ----

  function Remembered(s: State, force: bool, now: int): State {
    if !force && s.active == s.lastLine && now - s.lastEdit < PAUSE then s.(lastEdit := now)
    else
      var undo := s.undo + [Shot(s)];
      s.(undo := if |undo| > UNDO_CAP then undo[1..] else undo, redo := [], lastEdit := now, lastLine := s.active)
  }

  function Reset(s: State, snap: Snap): State {
    s.(
      lines := snap.lines,
      active := if snap.active.None? then None
                else if snap.active.value < |snap.lines| then snap.active
                else if snap.lines == [] then None
                else Some(|snap.lines| - 1),
      caret := snap.caret,
      lastLine := None)
  }

  function Undone(s: State): State {
    if s.undo == [] then s
    else
      var n := |s.undo| - 1;
      Reset(s, s.undo[n]).(undo := s.undo[..n], redo := s.redo + [Shot(s)])
  }

  function Redone(s: State): State {
    if s.redo == [] then s
    else
      var n := |s.redo| - 1;
      Reset(s, s.redo[n]).(redo := s.redo[..n], undo := s.undo + [Shot(s)])
  }

  // ---- editing ----

  function Activated(s: State, i: int, offset: int): State
    requires s.lines != []
  {
    var line := Clamp(i, |s.lines| - 1);
    s.(active := Some(line), caret := Clamp(offset, |s.lines[line]|))
  }

  function Deactivated(s: State): State {
    if s.active.None? then s else s.(active := None, lastLine := None)
  }

  /** The first of the pieces after what is left, the last before what is
      right. */
  function Wrapped(left: string, pieces: seq<string>, right: string): (r: seq<string>)
    requires pieces != []
    ensures |r| == |pieces|
  {
    var first := pieces[0 := left + pieces[0]];
    first[|pieces| - 1 := first[|pieces| - 1] + right]
  }

  function ReplacedSelection(s: State, text: string, start: Place, end: Place, now: int): State
    requires In(start, s.lines) && In(end, s.lines) && NotAfter(start, end)
  {
    var r := Remembered(s, true, now);
    var left, right := s.lines[start.line][..start.offset], s.lines[end.line][end.offset..];
    var pieces := Split(text);
    var last := |pieces| - 1;
    var t := r.(lines := s.lines[..start.line] + Wrapped(left, pieces, right) + s.lines[end.line + 1..]);
    Activated(t, start.line + last, (if last == 0 then |left| else 0) + |pieces[last]|).(lastLine := None)
  }

  function SelectedText(lines: seq<string>, start: Place, end: Place): string
    requires In(start, lines) && In(end, lines) && NotAfter(start, end)
  {
    var part := lines[start.line..end.line + 1];
    var cut := part[|part| - 1 := part[|part| - 1][..end.offset]];
    Flat(cut[0 := cut[0][start.offset..]])
  }

  predicate Blank(text: string) {
    forall k | 0 <= k < |text| :: IsSpace(text[k])
  }

  predicate Listy(b: Block) {
    b.kind.Item? || b.kind.Numbered? || b.kind.Quote?
  }

  function Value(digits: string): nat
    requires forall k | 0 <= k < |digits| :: IsDigit(digits[k])
  {
    if digits == "" then 0
    else
      assert IsDigit(digits[|digits| - 1]);
      Value(digits[..|digits| - 1]) * 10 + (digits[|digits| - 1] as nat - '0' as nat)
  }

  /** The prefix of the item that follows one with this text. */
  function NextPrefix(text: string): string {
    var b := BlockOf(text);
    if b.kind.Numbered? then Decimal(Value(text[..Digits(text)]) + 1) + ". " else b.prefix
  }

  /** The lines Return makes of one, and where the caret goes in the last. */
  function ReturnLines(text: string, off: nat): (r: (seq<string>, nat))
    requires off <= |text|
    ensures 2 <= |r.0| <= 3 && r.1 <= |r.0[|r.0| - 1]|
  {
    var b := BlockOf(text);
    var left, right := text[..off], text[off..];
    var gap := if b.kind.Prose? && !Blank(left) then [""] else [];
    if Listy(b) && left == b.prefix && right == "" then ([""] + gap + [""], 0)
    else if Listy(b) && left != "" && off >= |b.prefix| then
      ([left] + gap + [NextPrefix(text) + right], |NextPrefix(text)|)
    else ([left] + gap + [right], 0)
  }

  function Returned(s: State, off: nat, now: int): State
    requires s.active.Some? && s.active.value < |s.lines| && off <= |s.lines[s.active.value]|
  {
    var i := s.active.value;
    var (made, next) := ReturnLines(s.lines[i], off);
    var t := Remembered(s, true, now).(lines := s.lines[..i] + made + s.lines[i + 1..]);
    Activated(t, i + |made| - 1, next)
  }

  /** Backspace at a line's start. */
  function JoinedBack(s: State, now: int): State
    requires s.active.Some? && 0 < s.active.value < |s.lines|
  {
    var i := s.active.value;
    var t := Remembered(s, true, now)
             .(lines := s.lines[..i - 1] + [s.lines[i - 1] + s.lines[i]] + s.lines[i + 1..]);
    Activated(t, i - 1, |s.lines[i - 1]|)
  }

  /** Delete at a line's end. */
  function JoinedNext(s: State, now: int): State
    requires s.active.Some? && s.active.value + 1 < |s.lines|
  {
    var i := s.active.value;
    var t := Remembered(s, true, now)
             .(lines := s.lines[..i] + [s.lines[i] + s.lines[i + 1]] + s.lines[i + 2..]);
    Activated(t, i, |s.lines[i]|)
  }

  function Unbroken(text: string): (r: string)
    ensures |r| == |text| && '\n' !in r
  {
    if text == "" then "" else [if text[0] == '\n' then ' ' else text[0]] + Unbroken(text[1..])
  }

  /** Typing: the active line now holds this text. */
  function Edited(s: State, text: string, caret: nat, now: int): State
    requires s.active.Some? ==> s.active.value < |s.lines|
  {
    if s.active.None? then s
    else
      Remembered(s, false, now).(caret := caret, lines := s.lines[s.active.value := Unbroken(text)])
  }

  /** The textarea was set: it is read again, and the history ends. */
  function Changed(s: State, text: string): State {
    s.(lines := Split(text), active := None, undo := [], redo := [])
  }

  // ---- the page ----

  class Page {
    var lines: seq<string>
    var active: Option<nat>
    var caret: nat
    var undo: seq<Snap>
    var redo: seq<Snap>
    var lastEdit: int
    var lastLine: Option<nat>

    ghost function Now(): State
      reads this
    {
      State(lines, active, caret, undo, redo, lastEdit, lastLine)
    }

    constructor (text: string)
      ensures Now() == Opened(text)
    {
      lines, active, caret := Split(text), None, 0;
      undo, redo, lastEdit, lastLine := [], [], 0, None;
    }

    method Remember(force: bool, now: int)
      modifies this`undo, this`redo, this`lastEdit, this`lastLine
      ensures Now() == Remembered(old(Now()), force, now)
    {
      if !force && active == lastLine && now - lastEdit < PAUSE {
        lastEdit := now;
        return;
      }
      undo := undo + [Snap(lines, active, caret)];
      if |undo| > UNDO_CAP {
        undo := undo[1..];
      }
      redo := [];
      lastEdit := now;
      lastLine := active;
    }

    /** What both undo and redo do with the snapshot they took off. */
    method Restore(snap: Snap)
      modifies this`lines, this`active, this`caret, this`lastLine
      ensures Now() == Reset(old(Now()), snap)
    {
      lines := snap.lines;
      if snap.active.Some? && snap.active.value >= |lines| {
        active := if |lines| == 0 then None else Some(|lines| - 1);
      } else {
        active := snap.active;
      }
      caret := snap.caret;
      lastLine := None;
    }

    method Undo()
      modifies this
      ensures Now() == Undone(old(Now()))
    {
      if |undo| == 0 {
        return;
      }
      var snap := undo[|undo| - 1];
      undo := undo[..|undo| - 1];
      redo := redo + [Snap(lines, active, caret)];
      Restore(snap);
    }

    method Redo()
      modifies this
      ensures Now() == Redone(old(Now()))
    {
      if |redo| == 0 {
        return;
      }
      var snap := redo[|redo| - 1];
      redo := redo[..|redo| - 1];
      undo := undo + [Snap(lines, active, caret)];
      Restore(snap);
    }

    method Activate(i: int, offset: int)
      requires lines != []
      modifies this`active, this`caret
      ensures Now() == Activated(old(Now()), i, offset)
    {
      var line := Clamp(i, |lines| - 1);
      active := Some(line);
      caret := Clamp(offset, |lines[line]|);
    }

    method Deactivate()
      modifies this`active, this`lastLine
      ensures Now() == Deactivated(old(Now()))
    {
      if active.Some? {
        active := None;
        lastLine := None;
      }
    }

    method ReplaceSelection(text: string, start: Place, end: Place, now: int)
      requires In(start, lines) && In(end, lines) && NotAfter(start, end)
      modifies this
      ensures Now() == ReplacedSelection(old(Now()), text, start, end, now)
    {
      hide Split;
      hide Remembered;
      Remember(true, now);
      var left := lines[start.line][..start.offset];
      var right := lines[end.line][end.offset..];
      var pieces := Split(text);
      var last := |pieces| - 1;
      var lastLength := |pieces[last]|;
      pieces := pieces[0 := left + pieces[0]];
      pieces := pieces[last := pieces[last] + right];
      assert pieces == Wrapped(left, Split(text), right);
      lines := lines[..start.line] + pieces + lines[end.line + 1..];
      Activate(start.line + last, (if last == 0 then |left| else 0) + lastLength);
      lastLine := None;
    }

    method Return(off: nat, now: int)
      requires active.Some? && active.value < |lines| && off <= |lines[active.value]|
      modifies this
      ensures Now() == Returned(old(Now()), off, now)
    {
      var i, text := active.value, lines[active.value];
      Remember(true, now);
      var b := BlockOf(text);
      var left, right := text[..off], text[off..];
      var gap := if b.kind.Prose? && !Blank(left) then 1 else 0;
      if Listy(b) && left == b.prefix && right == "" {
        left := "";
      }
      var next := 0;
      if Listy(b) && left != "" && off >= |b.prefix| {
        var prefix := NextPrefix(text);
        right := prefix + right;
        next := |prefix|;
      }
      lines := lines[..i] + ([left] + (if gap == 1 then [""] else []) + [right]) + lines[i + 1..];
      Activate(i + 1 + gap, next);
    }

    method Backspace(now: int)
      requires active.Some? && 0 < active.value < |lines|
      modifies this
      ensures Now() == JoinedBack(old(Now()), now)
    {
      var i := active.value;
      Remember(true, now);
      var joinAt := |lines[i - 1]|;
      lines := lines[..i - 1] + [lines[i - 1] + lines[i]] + lines[i + 1..];
      Activate(i - 1, joinAt);
    }

    method DeleteForward(now: int)
      requires active.Some? && active.value + 1 < |lines|
      modifies this
      ensures Now() == JoinedNext(old(Now()), now)
    {
      var i := active.value;
      Remember(true, now);
      var joinAt := |lines[i]|;
      lines := lines[..i] + [lines[i] + lines[i + 1]] + lines[i + 2..];
      Activate(i, joinAt);
    }

    method Edit(text: string, offset: nat, now: int)
      requires active.Some? ==> active.value < |lines|
      modifies this
      ensures Now() == Edited(old(Now()), text, offset, now)
    {
      if active.None? {
        return;
      }
      Remember(false, now);
      caret := offset;
      lines := lines[active.value := Unbroken(text)];
    }

    method Change(text: string)
      modifies this
      ensures Now() == Changed(old(Now()), text)
    {
      lines := Split(text);
      active := None;
      undo := [];
      redo := [];
    }
  }
}
