/** The Option type used for table lookups and key decoding. */
module Maybe {
  datatype Option<+T> = None | Some(value: T)
}

/**
  How the recorder stores a keyboard key in its event log and how replay
  turns the stored text back into something the keyboard controller can press.

  A key is either a printable key (it has a character) or one of the symbolic
  keys of the input library's key enumeration (shift, ctrl, esc, ...).
  Capture stores the character for the first kind and the enumeration member's
  printed form "Key.<name>" for the second.  Replay looks for "Key." in the
  text, takes the piece after it (the second field of a split on "Key.") and
  looks that name up in the enumeration; a name that is not found yields
  nothing to press.
*/
module KeyCodec {
  import opened Maybe

  /** The members of the input library's symbolic key enumeration that the model carries. */
  datatype SymKey =
    | Alt | AltL | AltR | AltGr | Backspace | CapsLock | Cmd | Ctrl | CtrlL
    | CtrlR | Delete | Down | End | Enter | Esc | F1 | Home | Left | PageDown
    | PageUp | Right | Shift | ShiftL | ShiftR | Space | Tab | Up

  /** A key as the keyboard hook reports it. */
  datatype Key = Char(c: char) | Special(sym: SymKey)

  /** What replay hands to the keyboard controller's press/release. */
  datatype Target = Literal(text: string) | Symbolic(sym: SymKey)

  /** The marker that distinguishes stored symbolic keys. */
  const Prefix: string := "Key."

  /** The attribute name of a member of the key enumeration. */
  function Name(k: SymKey): string
  {
    match k
    case Alt => "alt"
    case AltL => "alt_l"
    case AltR => "alt_r"
    case AltGr => "alt_gr"
    case Backspace => "backspace"
    case CapsLock => "caps_lock"
    case Cmd => "cmd"
    case Ctrl => "ctrl"
    case CtrlL => "ctrl_l"
    case CtrlR => "ctrl_r"
    case Delete => "delete"
    case Down => "down"
    case End => "end"
    case Enter => "enter"
    case Esc => "esc"
    case F1 => "f1"
    case Home => "home"
    case Left => "left"
    case PageDown => "page_down"
    case PageUp => "page_up"
    case Right => "right"
    case Shift => "shift"
    case ShiftL => "shift_l"
    case ShiftR => "shift_r"
    case Space => "space"
    case Tab => "tab"
    case Up => "up"
  }

  /** Attribute lookup on the key enumeration with a None default. */
  function Lookup(name: string): Option<SymKey>
  {
    match name
    case "alt" => Some(Alt)
    case "alt_l" => Some(AltL)
    case "alt_r" => Some(AltR)
    case "alt_gr" => Some(AltGr)
    case "backspace" => Some(Backspace)
    case "caps_lock" => Some(CapsLock)
    case "cmd" => Some(Cmd)
    case "ctrl" => Some(Ctrl)
    case "ctrl_l" => Some(CtrlL)
    case "ctrl_r" => Some(CtrlR)
    case "delete" => Some(Delete)
    case "down" => Some(Down)
    case "end" => Some(End)
    case "enter" => Some(Enter)
    case "esc" => Some(Esc)
    case "f1" => Some(F1)
    case "home" => Some(Home)
    case "left" => Some(Left)
    case "page_down" => Some(PageDown)
    case "page_up" => Some(PageUp)
    case "right" => Some(Right)
    case "shift" => Some(Shift)
    case "shift_l" => Some(ShiftL)
    case "shift_r" => Some(ShiftR)
    case "space" => Some(Space)
    case "tab" => Some(Tab)
    case "up" => Some(Up)
    case _ => None
  }

  /** Looking a member's own name up in the enumeration finds that member. */
  lemma LookupName(k: SymKey)
    ensures Lookup(Name(k)) == Some(k)
  {
  }

  /** What the lookup finds is the member whose name was looked up. */
  lemma LookupSound(name: string)
    ensures Lookup(name).Some? ==> Name(Lookup(name).value) == name
  {
    match Lookup(name)
    case None =>
    case Some(k) =>
      match k
      case Alt =>
      case AltL =>
      case AltR =>
      case AltGr =>
      case Backspace =>
      case CapsLock =>
      case Cmd =>
      case Ctrl =>
      case CtrlL =>
      case CtrlR =>
      case Delete =>
      case Down =>
      case End =>
      case Enter =>
      case Esc =>
      case F1 =>
      case Home =>
      case Left =>
      case PageDown =>
      case PageUp =>
      case Right =>
      case Shift =>
      case ShiftL =>
      case ShiftR =>
      case Space =>
      case Tab =>
      case Up =>
  }

  /** No attribute name of the enumeration contains an upper-case K. */
  lemma NameHasNoK(k: SymKey)
    ensures 'K' !in Name(k)
  {
  }

  /**
    The text the capture callbacks store for a key: its character, or its
    printed form.  Only the printed form of a symbolic key holds "Key.".
  */
  function Encode(k: Key): (r: string)
    ensures r != []
    ensures Contains(r, Prefix) <==> k.Special?
  {
    match k
    case Char(c) => [c]
    case Special(sym) => Prefix + Name(sym)
  }

  /** What the keyboard controller receives when the stored key is replayed. */
  function TargetOf(k: Key): Target
  {
    match k
    case Char(c) => Literal([c])
    case Special(sym) => Symbolic(sym)
  }

  predicate OccursAt(s: string, p: string, j: nat)
  {
    j + |p| <= |s| && s[j..j + |p|] == p
  }

  /** The first occurrence of p in s at or after position i (Python's str.find). */
  function Find(s: string, p: string, i: nat): (r: Option<nat>)
    requires i <= |s|
    decreases |s| - i
    ensures r.Some? ==> i <= r.value && OccursAt(s, p, r.value)
    ensures r.Some? ==> forall j :: i <= j < r.value ==> !OccursAt(s, p, j)
    ensures r.None? ==> forall j :: i <= j ==> !OccursAt(s, p, j)
  {
    if i + |p| > |s| then None
    else if s[i..i + |p|] == p then Some(i)
    else Find(s, p, i + 1)
  }

  /** Python's `p in s`: p occurs somewhere in s. */
  predicate Contains(s: string, p: string)
    ensures Contains(s, p) <==> exists j :: OccursAt(s, p, j)
  {
    Find(s, p, 0).Some?
  }

  /**
    The second field of s.split(sep): the text between the first occurrence
    of sep and the next one found after it, or the end of s.
  */
  function SecondField(s: string, sep: string): (r: string)
    requires Contains(s, sep)
    ensures var b := Find(s, sep, 0).value + |sep|; var e := b + |r|;
      e <= |s| && r == s[b..e] &&
      (forall j :: b <= j < e ==> !OccursAt(s, sep, j)) &&
      (e == |s| || OccursAt(s, sep, e))
  {
    var i := Find(s, sep, 0).value;
    match Find(s, sep, i + |sep|)
    case None => s[i + |sep|..]
    case Some(j) => s[i + |sep|..j]
  }

  /**
    Replay's reading of a stored key: a text containing "Key." names a
    symbolic key (None when the enumeration has no such member), any other
    text is passed to the controller as it is.
  */
  function Decode(text: string): (r: Option<Target>)
    ensures !Contains(text, Prefix) ==> r == Some(Literal(text))
    ensures Contains(text, Prefix) ==> r.None? || r.value.Symbolic?
    ensures r.Some? && r.value.Symbolic? ==> Name(r.value.sym) == SecondField(text, Prefix)
  {
    if Contains(text, Prefix) then
      LookupSound(SecondField(text, Prefix));
      match Lookup(SecondField(text, Prefix))
      case Some(sym) => Some(Symbolic(sym))
      case None => None
    else
      Some(Literal(text))
  }

  /** Every occurrence of "Key." starts with a 'K', so a text without one has no occurrence. */
  lemma {:induction false} NoKNoPrefix(s: string, i: nat)
    requires i <= |s|
    requires 'K' !in s
    decreases |s| - i
    ensures Find(s, Prefix, i) == None
  {
    if i + |Prefix| <= |s| {
      assert s[i..i + |Prefix|][0] == s[i] != 'K';
      NoKNoPrefix(s, i + 1);
    }
  }

  /** Splitting "Key." + name on "Key." gives the name back when it holds no further "Key.". */
  lemma {:induction false} SecondFieldOfPrefixed(name: string)
    requires !Contains(name, Prefix)
    ensures Contains(Prefix + name, Prefix)
    ensures SecondField(Prefix + name, Prefix) == name
  {
    var s := Prefix + name;
    assert s[0..|Prefix|] == Prefix;
    assert Find(s, Prefix, 0) == Some(0);
    match Find(s, Prefix, |Prefix|)
    case None =>
      assert s[|Prefix|..] == name;
    case Some(j) =>
      assert s[j..j + |Prefix|] == name[j - |Prefix|..j - |Prefix| + |Prefix|];
      assert OccursAt(name, Prefix, j - |Prefix|);
      assert false;
  }

  /**
    Key round trip: replaying the text stored for a key hands the
    controller that same key -- the character of a printable key, the
    enumeration member of a symbolic one.
  */
  lemma KeyRoundTrip(k: Key)
    ensures Decode(Encode(k)) == Some(TargetOf(k))
  {
    match k
    case Char(c) =>
      assert Find([c], Prefix, 0) == None;
    case Special(sym) =>
      NameHasNoK(sym);
      NoKNoPrefix(Name(sym), 0);
      SecondFieldOfPrefixed(Name(sym));
      LookupName(sym);
  }

  /** A stored symbolic name the enumeration lacks decodes to nothing to press. */
  lemma UnknownNameSkipped(name: string)
    requires !Contains(name, Prefix)
    requires Lookup(name) == None
    ensures Decode(Prefix + name) == None
  {
    SecondFieldOfPrefixed(name);
  }
}
