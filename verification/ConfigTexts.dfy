/** The settings that a document gives as one string: click actions, workspace click
    actions and colours. Each is printed as something that parses to it again, exactly
    when it is in the form that parsing yields. */
module ConfigTexts {
  import opened Options
  import opened Chars

  // ----- 32-bit decimals -----

  function Digit(d: nat): (c: char)
    requires d < 10
    ensures IsDigit(c)
  {
    '0' + d as char
  }

  function PrintNat(n: nat): string {
    (if n < 10 then "" else PrintNat(n / 10)) + [Digit(n % 10)]
  }

  function PrintInt(i: int): string { if i < 0 then "-" + PrintNat(-i) else PrintNat(i) }

  predicate AllDigits(s: string) { s != "" && forall k | 0 <= k < |s| :: IsDigit(s[k]) }

  function NatOf(s: string): nat
    requires AllDigits(s)
  {
    (if |s| == 1 then 0 else 10 * NatOf(s[..|s| - 1])) + (s[|s| - 1] - '0') as nat
  }

  /** A sign or none, then digits, in the signed 32-bit range. */
  function ParseInt32(s: string): Option<int> {
    var negative := s != "" && s[0] == '-';
    var digits := if s != "" && s[0] in {'+', '-'} then s[1..] else s;
    if !AllDigits(digits) then None
    else
      var n: int := NatOf(digits);
      var i := if negative then -n else n;
      if IsInt32(i) then Some(i) else None
  }

  predicate IsInt32(i: int) { -0x8000_0000 <= i < 0x8000_0000 }

  lemma {:induction false} NatReadsBack(n: nat)
    ensures AllDigits(PrintNat(n)) && NatOf(PrintNat(n)) == n
    decreases n
  {
    var s := PrintNat(n);
    if n >= 10 {
      NatReadsBack(n / 10);
      assert s[..|s| - 1] == PrintNat(n / 10);
    }
  }

  lemma {:induction false} IntReadsBack(i: int)
    ensures ParseInt32(PrintInt(i)) == if IsInt32(i) then Some(i) else None
  {
    NatReadsBack(if i < 0 then -i else i);
    var s := PrintInt(i);
    assert i < 0 ==> s[1..] == PrintNat(-i);
  }

  // ----- click actions -----

  datatype ClickKind = ClickNone | ClickDropdown | ClickShell | ClickBrightness | ClickBrightnessToggle

  datatype ClickAction = ClickAction(kind: ClickKind, dropdown: string, command: string, brightness: int) {
    function Text(): string {
      match kind
      case ClickNone => ""
      case ClickDropdown => DROPDOWN + dropdown
      case ClickShell => command
      case ClickBrightness => BRIGHTNESS + PrintInt(brightness)
      case ClickBrightnessToggle => BRIGHTNESS + TOGGLE
    }

    /** Only what the kind uses is set; a command is not empty and does not look like
        one of the other kinds. */
    predicate Proper() {
      && (kind != ClickDropdown ==> dropdown == "")
      && (kind != ClickBrightness ==> brightness == 0)
      && IsInt32(brightness)
      && if kind == ClickShell then command != "" && !(BRIGHTNESS <= command) && !(DROPDOWN <= command)
         else command == ""
    }
  }

  const DROPDOWN: string := "dropdown:"
  const BRIGHTNESS: string := "brightness:"
  const TOGGLE: string := "toggle"
  const NO_CLICK: ClickAction := ClickAction(ClickNone, "", "", 0)

  /** Every string is an action; a brightness that is no 32-bit number is none. */
  function ParseClick(s: string): ClickAction {
    if s == "" then NO_CLICK
    else if BRIGHTNESS <= s then ParseBrightness(s[|BRIGHTNESS|..])
    else if DROPDOWN <= s then ClickAction(ClickDropdown, s[|DROPDOWN|..], "", 0)
    else ClickAction(ClickShell, "", s, 0)
  }

  function ParseBrightness(rest: string): ClickAction {
    if rest == TOGGLE then ClickAction(ClickBrightnessToggle, "", "", 0)
    else if ParseInt32(rest).None? then NO_CLICK
    else ClickAction(ClickBrightness, "", "", ParseInt32(rest).value)
  }

  lemma {:induction false} ParsedClickProper(s: string)
    ensures ParseClick(s).Proper()
  {
  }

  /** An action's text parses to it if and only if the action is proper. */
  lemma {:induction false} ClickReadsBack(a: ClickAction)
    ensures ParseClick(a.Text()) == a <==> a.Proper()
  {
    if a.Proper() {
      ProperClick(a);
    } else {
      ParsedClickProper(a.Text());
    }
  }

  lemma {:induction false} ProperClick(a: ClickAction)
    requires a.Proper()
    ensures ParseClick(a.Text()) == a
  {
    match a.kind
    case ClickBrightness =>
      IntReadsBack(a.brightness);
      NotToggle(a.brightness);
      assert (BRIGHTNESS + PrintInt(a.brightness))[|BRIGHTNESS|..] == PrintInt(a.brightness);
    case ClickBrightnessToggle =>
      assert (BRIGHTNESS + TOGGLE)[|BRIGHTNESS|..] == TOGGLE;
    case ClickDropdown =>
      assert (DROPDOWN + a.dropdown)[|DROPDOWN|..] == a.dropdown;
      assert (DROPDOWN + a.dropdown)[0] == 'd' && BRIGHTNESS[0] == 'b';
    case _ =>
  }

  lemma {:induction false} NotToggle(i: int)
    ensures PrintInt(i) != TOGGLE
  {
    NatReadsBack(if i < 0 then -i else i);
    assert TOGGLE[0] == 't';
    if i >= 0 {
      assert IsDigit(PrintInt(i)[0]);
    }
  }

  // ----- workspace click actions -----

  datatype WorkspaceKind =
    | WorkspaceNone | FocusThis | FocusNext | FocusPrevious | FocusLast | WorkspaceDropdown | WorkspaceShell

  datatype WorkspaceAction = WorkspaceAction(kind: WorkspaceKind, arg: string) {
    function Text(): string {
      if kind == WorkspaceDropdown then DROPDOWN + arg
      else if kind == WorkspaceShell then arg
      else Word(kind)
    }

    predicate Proper() {
      if kind == WorkspaceDropdown then true
      else if kind == WorkspaceShell then WordKind(arg).None? && !(DROPDOWN <= arg)
      else arg == ""
    }
  }

  function Word(kind: WorkspaceKind): string
    requires kind != WorkspaceDropdown && kind != WorkspaceShell
  {
    match kind
    case WorkspaceNone => ""
    case FocusThis => "focus:this"
    case FocusNext => "focus:next"
    case FocusPrevious => "focus:previous"
    case FocusLast => "focus:last"
  }

  /** The kind that a word stands for. */
  function WordKind(s: string): Option<WorkspaceKind> {
    if s == "" then Some(WorkspaceNone)
    else if s == "focus:this" then Some(FocusThis)
    else if s == "focus:next" then Some(FocusNext)
    else if s == "focus:previous" then Some(FocusPrevious)
    else if s == "focus:last" then Some(FocusLast)
    else None
  }

  function ParseWorkspaceClick(s: string): WorkspaceAction {
    if WordKind(s).Some? then WorkspaceAction(WordKind(s).value, "")
    else if DROPDOWN <= s then WorkspaceAction(WorkspaceDropdown, s[|DROPDOWN|..])
    else WorkspaceAction(WorkspaceShell, s)
  }

  /** The text read is the text written; an action is read back if and only if it is
      proper. */
  lemma {:induction false} WorkspaceReadsBack(s: string, a: WorkspaceAction)
    ensures ParseWorkspaceClick(s).Text() == s
    ensures ParseWorkspaceClick(a.Text()) == a <==> a.Proper()
  {
    DistinctWords();
    if a.kind == WorkspaceDropdown {
      assert a.Text()[0] == 'd' && a.Text()[|DROPDOWN|..] == a.arg;
    }
  }

  lemma {:induction false} DistinctWords()
    ensures forall k: WorkspaceKind | k != WorkspaceDropdown && k != WorkspaceShell :: WordKind(Word(k)) == Some(k)
  {
    assert "focus:this"[6] == 't' && "focus:next"[6] == 'n' && "focus:previous"[6] == 'p' && "focus:last"[6] == 'l';
  }

  // ----- colours -----

  datatype ColorKind = ColorAuto | ColorToken | ColorCustom | ColorTransparent

  datatype ColorValue = ColorValue(kind: ColorKind, token: string, hex: string) {
    function Text(): string {
      match kind
      case ColorCustom => hex
      case ColorTransparent => TRANSPARENT
      case ColorAuto => AUTO
      case ColorToken => token
    }

    predicate Proper() {
      && (if kind == ColorToken then token in TOKENS else token == "")
      && if kind == ColorCustom then IsHexColor(hex) else hex == ""
    }
  }

  const TRANSPARENT: string := "transparent"
  const AUTO: string := "auto"

  const TOKENS: set<string> := {
    "bg-base", "bg-surface", "bg-surface-elevated", "bg-elevated", "bg-overlay", "bg-hover", "bg-active",
    "bg-selected", "fg-default", "fg-muted", "fg-subtle", "fg-on-accent", "accent", "accent-subtle",
    "accent-hover", "status-error", "status-warning", "status-success", "status-info", "status-error-subtle",
    "status-warning-subtle", "status-success-subtle", "status-info-subtle", "status-error-hover", "red",
    "yellow", "green", "blue", "border-subtle", "border-default", "border-strong", "border-accent",
    "border-error"}

  /** A hash and three, four, six or eight hexadecimal digits. */
  predicate IsHexColor(s: string) {
    s != "" && s[0] == '#' && |s| in {4, 5, 7, 9} && forall k | 1 <= k < |s| :: IsHex(s[k])
  }

  function ParseColor(s: string): Option<ColorValue> {
    if s == TRANSPARENT then Some(ColorValue(ColorTransparent, "", ""))
    else if s == AUTO then Some(ColorValue(ColorAuto, "", ""))
    else if s != "" && s[0] == '#' then if IsHexColor(s) then Some(ColorValue(ColorCustom, "", s)) else None
    else if s in TOKENS then Some(ColorValue(ColorToken, s, ""))
    else None
  }

  /** The text read is the text written; a colour is read back if and only if it is
      proper. */
  lemma {:induction false} ColorReadsBack(s: string, c: ColorValue)
    ensures ParseColor(s).Some? ==> ParseColor(s).value.Text() == s
    ensures ParseColor(c.Text()) == Some(c) <==> c.Proper()
  {
    if c.Proper() {
      ProperColor(c);
    } else if ParseColor(c.Text()).Some? {
      ParsedColorProper(c.Text());
    }
  }

  lemma {:induction false} ParsedColorProper(s: string)
    requires ParseColor(s).Some?
    ensures ParseColor(s).value.Proper()
  {
  }

  lemma {:induction false} ProperColor(c: ColorValue)
    requires c.Proper()
    ensures ParseColor(c.Text()) == Some(c)
  {
    match c.kind
    case ColorToken => TokenApart(c.token);
    case ColorCustom => assert c.hex[0] != TRANSPARENT[0] && c.hex[0] != AUTO[0];
    case _ => assert TRANSPARENT[0] == 't' && AUTO[0] == 'a';
  }

  lemma {:induction false} TokenApart(t: string)
    requires t in TOKENS
    ensures t != "" && t[0] != '#' && t != TRANSPARENT && t != AUTO
  {
  }
}
