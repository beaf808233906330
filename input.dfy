/** The terminal-side events the main loop handles besides redraws: a key
    press becomes the text sent to the editor as input, and a resize updates
    the size the handler indexes the buffer with and asks the editor to
    resize its interface when the size changed. */
module Input {
  import opened Values
  import opened Decode
  import opened Records
  import opened Grid
  import opened Redraw

  /** A key event: the two special keys with a name of their own, and any
      other key, which carries the rune the terminal reported for it (a Go
      `rune`, so any 32-bit value). */
  datatype Key = Escape | Backspace2 | Other(rune: int)

  /** The code points Go's `string(r)` keeps; every other value becomes
      U+FFFD. */
  predicate IsScalar(r: int) {
    (0 <= r < 0xD800) || (0xE000 <= r < 0x11_0000)
  }

  /** The rune Go's `string(r)` encodes: `r` itself when it is a code
      point, U+FFFD otherwise. */
  function SentRune(r: int): int {
    if IsScalar(r) then r else 0xFFFD
  }

  /** The text a key press sends to the editor. */
  function KeyText(k: Key): (s: string)
    ensures |s| > 0
    ensures k.Escape? ==> s == "<esc>"
    ensures k.Backspace2? ==> s == "<bs>"
    ensures k.Other? ==> |s| == 1 && s[0] as int == SentRune(k.rune)
  {
    match k
    case Escape => "<esc>"
    case Backspace2 => "<bs>"
    case Other(r) => if IsScalar(r) then [r as char] else ['\U{FFFD}']
  }

  /** The text of a key press is never empty, so every key press is sent. */
  function KeyInput(k: Key): (sent: Option<string>)
    ensures sent.Some? && sent.value == KeyText(k)
  {
    var s := KeyText(k);
    if |s| > 0 then Some(s) else None
  }

  /** The special keys send their names, which no other key sends: not the
      other special key, and no single character. */
  lemma {:induction false} SpecialKeysDistinct(k: Key, other: Key)
    requires k.Escape? || k.Backspace2?
    requires other != k
    ensures KeyText(k) != KeyText(other)
  {
    if other.Other? {
      assert |KeyText(k)| > 1;
    } else {
      assert |KeyText(k)| != |KeyText(other)|;
    }
  }

  /** Two ordinary keys send the same text exactly when they encode the
      same rune: distinct code points stay distinct, and every value that is
      not one is sent as U+FFFD. */
  lemma {:induction false} OtherKeysInjective(a: int, b: int)
    ensures KeyText(Other(a)) == KeyText(Other(b)) <==> SentRune(a) == SentRune(b)
  {
    var sa, sb := KeyText(Other(a)), KeyText(Other(b));
    assert sa[0] as int == SentRune(a) && sb[0] as int == SentRune(b);
    if SentRune(a) == SentRune(b) {
      assert sa == [sa[0]] && sb == [sb[0]];
    }
  }

  /** A terminal resize to `w` x `h`: the new size is recorded, and the
      editor is asked to resize its interface only when it differs from the
      old one. The buffer is left as it was. */
  function Resize(s: State, w: nat, h: nat): (r: (State, bool))
    ensures r.1 <==> (w != s.width || h != s.height)
    ensures r.0.width == w && r.0.height == h
    ensures r.0 == s.(width := w, height := h)
  {
    if w != s.width || h != s.height then (s.(width := w, height := h), true)
    else (s, false)
  }

  /** After a resize the buffer keeps one cell per screen position only when
      the area is unchanged: the buffer is not reallocated before the next
      `grid_clear`. */
  lemma {:induction false} ResizeShape(s: State, w: nat, h: nat)
    requires Shaped(s)
    ensures Shaped(Resize(s, w, h).0) <==> w * h == s.width * s.height
  {
  }

  /** A witness of that gap: on a 2 x 2 screen widened to 3 x 2, a
      `grid_line` tuple writing one cell at row 1, column 2 (a position of
      the new screen) indexes the old four-cell buffer at 5, and the update
      panics. */
  lemma {:induction false} ResizeThenLineFails()
    ensures var s := Resize(Initial(2, 2), 3, 2).0;
      && 1 < s.height && 2 < s.width
      && !LineFits(|s.grid|, s.width, LineData(1, 1, 2, [Cell('a', None, None)]))
  {
    var s := Resize(Initial(2, 2), 3, 2).0;
    var d := LineData(1, 1, 2, [Cell('a', None, None)]);
    assert RunLength(d.cells, 1) == 1;
  }

  /** The next `grid_clear` restores the shape at the new size. */
  lemma {:induction false} ClearAfterResize(s: State, w: nat, h: nat)
    ensures var r := GridClear(Resize(s, w, h).0);
      Shaped(r) && |r.grid| == w * h
  {
  }
}
