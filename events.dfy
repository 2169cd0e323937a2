/** The event values that travel through Envs: `gui.Resize` and the window,
    mouse and keyboard events of package win, with their `String()` forms
    ("mo/down/421/890/left"), which follow the path-like prefix convention
    "wi/", "mo/", "kb/". */
module Events {
  import opened Outcome
  import opened Geom
  import opened Decimal
  import opened Path

  datatype Button = ButtonLeft | ButtonRight | ButtonMiddle

  datatype Key =
    | KeyLeft | KeyRight | KeyUp | KeyDown | KeyEscape | KeySpace | KeyBackspace
    | KeyDelete | KeyEnter | KeyTab | KeyHome | KeyEnd | KeyPageUp | KeyPageDown
    | KeyShift | KeyCtrl | KeyAlt

  datatype Event =
    | Resize(r: Rect)
    | WiClose
    | WiRefresh
    | MoMove(p: Point)
    | MoDown(p: Point, button: Button)
    | MoUp(p: Point, button: Button)
    | MoScroll(p: Point)
    | KbType(rune: int)
    | KbDown(key: Key)
    | KbUp(key: Key)
    | KbRepeat(key: Key)

  function ButtonName(b: Button): string
  {
    match b
    case ButtonLeft => "left"
    case ButtonRight => "right"
    case ButtonMiddle => "middle"
  }

  function KeyName(k: Key): string
  {
    match k
    case KeyLeft => "left"
    case KeyRight => "right"
    case KeyUp => "up"
    case KeyDown => "down"
    case KeyEscape => "escape"
    case KeySpace => "space"
    case KeyBackspace => "backspace"
    case KeyDelete => "delete"
    case KeyEnter => "enter"
    case KeyTab => "tab"
    case KeyHome => "home"
    case KeyEnd => "end"
    case KeyPageUp => "pageup"
    case KeyPageDown => "pagedown"
    case KeyShift => "shift"
    case KeyCtrl => "ctrl"
    case KeyAlt => "alt"
  }

  function ButtonOf(name: string): Option<Button>
  {
    if name == "left" then Some(ButtonLeft)
    else if name == "right" then Some(ButtonRight)
    else if name == "middle" then Some(ButtonMiddle)
    else None
  }

  function KeyOf(name: string): Option<Key>
  {
    if name == "left" then Some(KeyLeft)
    else if name == "right" then Some(KeyRight)
    else if name == "up" then Some(KeyUp)
    else if name == "down" then Some(KeyDown)
    else if name == "escape" then Some(KeyEscape)
    else if name == "space" then Some(KeySpace)
    else if name == "backspace" then Some(KeyBackspace)
    else if name == "delete" then Some(KeyDelete)
    else if name == "enter" then Some(KeyEnter)
    else if name == "tab" then Some(KeyTab)
    else if name == "home" then Some(KeyHome)
    else if name == "end" then Some(KeyEnd)
    else if name == "pageup" then Some(KeyPageUp)
    else if name == "pagedown" then Some(KeyPageDown)
    else if name == "shift" then Some(KeyShift)
    else if name == "ctrl" then Some(KeyCtrl)
    else if name == "alt" then Some(KeyAlt)
    else None
  }

  /** The button names are the three constants, told apart by their text. */
  lemma ButtonNames(b: Button)
    ensures ButtonOf(ButtonName(b)) == Some(b)
    ensures Sep !in ButtonName(b)
  {
  }

  /** Every key name reads back as its key, so the 17 names are pairwise
      distinct. */
  lemma KeyNames(k: Key)
    ensures KeyOf(KeyName(k)) == Some(k)
    ensures Sep !in KeyName(k)
  {
  }

  lemma KeyNamesDistinct(k1: Key, k2: Key)
    requires k1 != k2
    ensures KeyName(k1) != KeyName(k2)
  {
    KeyNames(k1);
    KeyNames(k2);
  }

  /** The "/"-separated parts of a window event's `String()`. */
  function Parts(e: Event): (parts: seq<string>)
    requires !e.Resize?
  {
    match e
    case WiClose => ["wi", "close"]
    case WiRefresh => ["wi", "refresh"]
    case MoMove(p) => ["mo", "move", IntToString(p.x), IntToString(p.y)]
    case MoDown(p, b) => ["mo", "down", IntToString(p.x), IntToString(p.y), ButtonName(b)]
    case MoUp(p, b) => ["mo", "up", IntToString(p.x), IntToString(p.y), ButtonName(b)]
    case MoScroll(p) => ["mo", "scroll", IntToString(p.x), IntToString(p.y)]
    case KbType(c) => ["kb", "type", IntToString(c)]
    case KbDown(k) => ["kb", "down", KeyName(k)]
    case KbUp(k) => ["kb", "up", KeyName(k)]
    case KbRepeat(k) => ["kb", "repeat", KeyName(k)]
  }

  /** The `String()` method of each window event type. */
  function String(e: Event): (s: string)
    requires !e.Resize?
    ensures |s| > 3
    ensures (e.MoMove? || e.MoDown? || e.MoUp? || e.MoScroll?) <==> s[..3] == "mo/"
    ensures (e.KbType? || e.KbDown? || e.KbUp? || e.KbRepeat?) <==> s[..3] == "kb/"
    ensures (e.WiClose? || e.WiRefresh?) <==> s[..3] == "wi/"
  {
    var parts := Parts(e);
    assert Join(parts) == parts[0] + "/" + Join(parts[1..]);
    assert Join(parts)[..3] == parts[0] + "/";
    assert |parts[0]| == 2 && parts[0] in {"mo", "kb", "wi"};
    assert Join(parts)[..3] == "mo/" ==> parts[0] == Join(parts)[..2] == "mo";
    assert parts[0] == "mo" <==> (e.MoMove? || e.MoDown? || e.MoUp? || e.MoScroll?);
    assert parts[0] == "kb" <==> (e.KbType? || e.KbDown? || e.KbUp? || e.KbRepeat?);
    Join(parts)
  }

  /** Reading an event back from its parts; the inverse of `Parts`. */
  function ParseParts(parts: seq<string>): Option<Event>
  {
    if |parts| < 2 then None
    else if parts == ["wi", "close"] then Some(WiClose)
    else if parts == ["wi", "refresh"] then Some(WiRefresh)
    else if parts[0] == "mo" && |parts| == 4 && parts[1] in {"move", "scroll"} then
      match (ParseInt(parts[2]), ParseInt(parts[3]))
      case (Some(x), Some(y)) =>
        if parts[1] == "move" then Some(MoMove(Point(x, y))) else Some(MoScroll(Point(x, y)))
      case _ => None
    else if parts[0] == "mo" && |parts| == 5 && parts[1] in {"down", "up"} then
      match (ParseInt(parts[2]), ParseInt(parts[3]), ButtonOf(parts[4]))
      case (Some(x), Some(y), Some(b)) =>
        if parts[1] == "down" then Some(MoDown(Point(x, y), b)) else Some(MoUp(Point(x, y), b))
      case _ => None
    else if parts[0] == "kb" && |parts| == 3 && parts[1] == "type" then
      match ParseInt(parts[2])
      case Some(c) => Some(KbType(c))
      case None => None
    else if parts[0] == "kb" && |parts| == 3 && parts[1] in {"down", "up", "repeat"} then
      match KeyOf(parts[2])
      case Some(k) =>
        if parts[1] == "down" then Some(KbDown(k))
        else if parts[1] == "up" then Some(KbUp(k))
        else Some(KbRepeat(k))
      case None => None
    else None
  }

  function Parse(s: string): Option<Event>
  {
    ParseParts(Split(s))
  }

  /** `String()` loses nothing: the event can be read back from its text. */
  lemma ParseString(e: Event)
    requires !e.Resize?
    ensures Parse(String(e)) == Some(e)
  {
    var parts := Parts(e);
    assert NoSep(parts) by {
      match e {
        case MoDown(_, b) => ButtonNames(b);
        case MoUp(_, b) => ButtonNames(b);
        case KbDown(k) => KeyNames(k);
        case KbUp(k) => KeyNames(k);
        case KbRepeat(k) => KeyNames(k);
        case _ =>
      }
    }
    SplitJoin(parts);
    assert Split(String(e)) == parts;
    ParsePartsOfEvent(e);
  }

  lemma ParsePartsOfEvent(e: Event)
    requires !e.Resize?
    ensures ParseParts(Parts(e)) == Some(e)
  {
    if e.MoMove? || e.MoScroll? {
      ParseMoveParts(e);
    } else if e.MoDown? || e.MoUp? {
      ParseButtonParts(e);
    } else if e.KbType? || e.KbDown? || e.KbUp? || e.KbRepeat? {
      ParseKeyboardParts(e);
    }
  }

  lemma ParseMoveParts(e: Event)
    requires e.MoMove? || e.MoScroll?
    ensures ParseParts(Parts(e)) == Some(e)
  {
    ParseIntToString(e.p.x);
    ParseIntToString(e.p.y);
  }

  lemma ParseButtonParts(e: Event)
    requires e.MoDown? || e.MoUp?
    ensures ParseParts(Parts(e)) == Some(e)
  {
    ParseIntToString(e.p.x);
    ParseIntToString(e.p.y);
    ButtonNames(e.button);
  }

  lemma ParseKeyboardParts(e: Event)
    requires e.KbType? || e.KbDown? || e.KbUp? || e.KbRepeat?
    ensures ParseParts(Parts(e)) == Some(e)
  {
    if e.KbType? {
      ParseIntToString(e.rune);
    } else {
      KeyNames(e.key);
    }
  }

  /** Distinct window events have distinct strings. */
  lemma StringInjective(e1: Event, e2: Event)
    requires !e1.Resize? && !e2.Resize? && String(e1) == String(e2)
    ensures e1 == e2
  {
    ParseString(e1);
    ParseString(e2);
  }
}
