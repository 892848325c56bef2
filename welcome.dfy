/**
 * The welcome and game screens of main.cpp: the player-name editor of the
 * welcome screen, the activation flags of both screens, the keyboard filter
 * of the event loop and the window size.
 *
 * The name always ends in the cursor character '|'; the letters before it
 * are the player's name, capitalised on its first letter. Characters follow
 * the C locale: letters are the 52 ASCII letters and case conversion only
 * touches them.
 */
module Welcome {

  const Cursor: char := '|'

  /** Longest name the keyboard filter lets through, cursor included. */
  const MaxNameLength: nat := 10

  /** Pixel size of a tile and height of the bar below the board. */
  const TileSize: int := 32
  const BarHeight: int := 100

  predicate IsUpper(c: char) { 'A' <= c <= 'Z' }
  predicate IsLower(c: char) { 'a' <= c <= 'z' }

  /** isalpha in the C locale. */
  predicate IsAsciiLetter(c: char) { IsUpper(c) || IsLower(c) }

  /** toupper in the C locale. */
  function ToUpper(c: char): (u: char)
    ensures IsLower(c) ==> IsUpper(u) && u as int + 32 == c as int
    ensures !IsLower(c) ==> u == c
  {
    if IsLower(c) then (c as int - 32) as char else c
  }

  /** tolower in the C locale. */
  function ToLower(c: char): (l: char)
    ensures IsUpper(c) ==> IsLower(l) && l as int == c as int + 32
    ensures !IsUpper(c) ==> l == c
  {
    if IsUpper(c) then (c as int + 32) as char else c
  }

  /** Case conversion maps letters to letters of the requested case, and
      converting back and forth loses nothing. */
  lemma CaseConversion(c: char)
    requires IsAsciiLetter(c)
    ensures IsUpper(ToUpper(c)) && IsLower(ToLower(c))
    ensures ToUpper(ToLower(c)) == ToUpper(c) && ToLower(ToUpper(c)) == ToLower(c)
  {
  }

  /** The letters of a name: everything before its final cursor. */
  function Letters(name: string): string
    requires |name| >= 1
  {
    name[..|name| - 1]
  }

  /** The shape the name keeps: letters followed by the cursor, at most
      MaxNameLength characters in all, the first letter upper-case and the
      others lower-case. In particular the cursor appears only at the end. */
  ghost predicate WellFormedName(name: string)
  {
    && 1 <= |name| <= MaxNameLength
    && name[|name| - 1] == Cursor
    && (forall k :: 0 <= k < |name| - 1 ==> IsAsciiLetter(name[k]))
    && (|name| > 1 ==> IsUpper(name[0]))
    && (forall k :: 1 <= k < |name| - 1 ==> IsLower(name[k]))
  }

  /** The name after addCharacter(c): the cursor is removed, c is appended
      upper-cased when it is the first letter and lower-cased otherwise, and
      the cursor is put back. */
  function AddedName(name: string, c: char): string
    requires |name| >= 1
  {
    var letters := name[..|name| - 1];
    letters + [if letters != [] then ToLower(c) else ToUpper(c)] + [Cursor]
  }

  /** The name after popCharacter(): the last two characters are replaced by
      the cursor when the name is longer than the cursor alone. */
  function PoppedName(name: string): string
  {
    if |name| > 1 then name[..|name| - 2] + [Cursor] else name
  }

  /** addCharacter inserts exactly one character in front of the last one,
      in the case its position asks for, and grows the name by one. */
  lemma AddedNameShape(name: string, c: char)
    requires |name| >= 1
    ensures var r := AddedName(name, c);
      && |r| == |name| + 1
      && r[..|name| - 1] == name[..|name| - 1]
      && r[|name| - 1] == (if |name| == 1 then ToUpper(c) else ToLower(c))
      && r[|name|] == Cursor
  {
  }

  /** popCharacter removes the last letter and keeps the cursor; on the bare
      cursor it changes nothing. */
  lemma PoppedNameShape(name: string)
    requires WellFormedName(name)
    ensures WellFormedName(PoppedName(name))
    ensures |name| > 1 ==> Letters(PoppedName(name)) == Letters(name)[..|name| - 2]
    ensures |name| == 1 ==> PoppedName(name) == [Cursor]
  {
  }

  /** Adding a letter to a name with room for it keeps the name well formed. */
  lemma AddKeepsWellFormed(name: string, c: char)
    requires WellFormedName(name) && |name| < MaxNameLength && IsAsciiLetter(c)
    ensures WellFormedName(AddedName(name, c))
  {
    CaseConversion(c);
    var r := AddedName(name, c);
    assert r[..|name| - 1] == name[..|name| - 1];
  }

  /** Round trip: popping right after adding restores the name. */
  lemma PopAfterAdd(name: string, c: char)
    requires |name| >= 1 && name[|name| - 1] == Cursor
    ensures PoppedName(AddedName(name, c)) == name
  {
    var r := AddedName(name, c);
    assert r[..|r| - 2] == name[..|name| - 1];
    assert name == name[..|name| - 1] + [Cursor];
  }

  class WelcomeScreen {
    /** Shown while true. */
    var active: bool
    var name: string
    var width: int
    var height: int

    constructor (width: int, height: int)
      ensures active && name == [Cursor]
      ensures this.width == width && this.height == height
    {
      active := true;
      name := [Cursor];
      this.width, this.height := width, height;
    }

    /** Appends c in front of the cursor; the cursor must be there to be
        popped first. */
    method AddCharacter(c: char)
      requires |name| >= 1
      modifies this`name
      ensures name == AddedName(old(name), c)
    {
      name := name[..|name| - 1];
      if name != [] {
        name := name + [ToLower(c)];
      } else {
        name := name + [ToUpper(c)];
      }
      name := name + [Cursor];
    }

    /** Removes the last letter, keeping the cursor, unless only the cursor
        is left. */
    method PopCharacter()
      modifies this`name
      ensures name == PoppedName(old(name))
    {
      if |name| > 1 {
        name := name[..|name| - 1];
        name := name[..|name| - 1];
        name := name + [Cursor];
      }
    }

    method Activate()
      modifies this`active
      ensures active
    {
      active := true;
    }

    method Deactivate()
      modifies this`active
      ensures !active
    {
      active := false;
    }
  }

  class GameScreen {
    var active: bool
    var width: int
    var height: int

    constructor (width: int, height: int)
      ensures !active
      ensures this.width == width && this.height == height
    {
      active := false;
      this.width, this.height := width, height;
    }

    method Activate()
      modifies this`active
      ensures active
    {
      active := true;
    }

    method Deactivate()
      modifies this`active
      ensures !active
    {
      active := false;
    }
  }

  datatype Key = BackSpace | Enter | OtherKey

  /** The window events the loop tells apart. */
  datatype Event = Closed | TextEntered(unicode: nat) | KeyPressed(key: Key) | OtherEvent

  /** What the event filter reads and writes. */
  datatype ScreenState = ScreenState(windowOpen: bool, welcomeActive: bool, gameActive: bool, name: string)

  /** Reference definition of one pass of the event filter. A closing event
      closes the window and is then still seen by the welcome screen; text
      is added only while the name is shorter than the cap and only when it
      is an ASCII letter; backspace pops only when a letter is there; enter
      hands over from the welcome screen to the game screen. Nothing reacts
      while the welcome screen is inactive. */
  function Step(s: ScreenState, ev: Event): ScreenState
    requires |s.name| >= 1
  {
    var s := if ev.Closed? then s.(windowOpen := false) else s;
    if !s.welcomeActive then s
    else match ev
      case TextEntered(u) =>
        if |s.name| == MaxNameLength then s
        else if u < 128 && IsAsciiLetter(u as char) then s.(name := AddedName(s.name, u as char))
        else s
      case KeyPressed(k) =>
        if k == BackSpace && |s.name| > 1 then s.(name := PoppedName(s.name))
        else if k == Enter && |s.name| > 0 then s.(welcomeActive := false, gameActive := true)
        else s
      case _ => s
  }

  /** The event filter of the main loop, applied to the two screens and the
      window's open flag. */
  method HandleEvent(welcome: WelcomeScreen, game: GameScreen, windowOpen: bool, ev: Event)
    returns (stillOpen: bool)
    requires |welcome.name| >= 1
    modifies welcome`name, welcome`active, game`active
    ensures ScreenState(stillOpen, welcome.active, game.active, welcome.name) ==
      Step(old(ScreenState(windowOpen, welcome.active, game.active, welcome.name)), ev)
  {
    stillOpen := windowOpen;
    if ev.Closed? {
      stillOpen := false;
    }
    if welcome.active {
      if ev.TextEntered? {
        if |welcome.name| == MaxNameLength {
        } else if ev.unicode < 128 {
          var character := ev.unicode as char;
          if IsAsciiLetter(character) {
            welcome.AddCharacter(character);
          }
        }
      } else if ev.KeyPressed? {
        if ev.key == BackSpace && |welcome.name| > 1 {
          welcome.PopCharacter();
        } else if ev.key == Enter && |welcome.name| > 0 {
          welcome.Deactivate();
          game.Activate();
        }
      }
    }
  }

  /** What every pass of the filter keeps: a well-formed name and exactly one
      active screen. */
  ghost predicate Consistent(s: ScreenState)
  {
    WellFormedName(s.name) && s.welcomeActive != s.gameActive
  }

  /** The state right after both screens are created. */
  function Initial(): (s: ScreenState)
    ensures Consistent(s) && s.windowOpen && s.welcomeActive && !s.gameActive
  {
    ScreenState(true, true, false, [Cursor])
  }

  /** One pass of the filter keeps the state consistent: the name only grows
      by ASCII letters, never beyond the cap, and the screens swap as a pair. */
  lemma StepKeepsConsistent(s: ScreenState, ev: Event)
    requires Consistent(s)
    ensures Consistent(Step(s, ev))
  {
    if s.welcomeActive && ev.TextEntered? && |s.name| < MaxNameLength
      && ev.unicode < 128 && IsAsciiLetter(ev.unicode as char) {
      AddKeepsWellFormed(s.name, ev.unicode as char);
    } else if s.welcomeActive && ev.KeyPressed? && ev.key == BackSpace && |s.name| > 1 {
      PoppedNameShape(s.name);
    }
  }

  /** Only ASCII letters ever enter the name: text that is not one leaves
      the state unchanged apart from the window. */
  lemma NonLetterIgnored(s: ScreenState, u: nat)
    requires |s.name| >= 1
    requires u >= 128 || !IsAsciiLetter(u as char)
    ensures Step(s, TextEntered(u)) == s
  {
  }

  /** A name at the cap accepts no more text. */
  lemma FullNameIgnoresText(s: ScreenState, u: nat)
    requires |s.name| == MaxNameLength
    ensures Step(s, TextEntered(u)) == s
  {
  }

  /** Enter on the welcome screen always starts the game, whatever the name,
      and leaves exactly the game screen active. */
  lemma EnterStartsGame(s: ScreenState)
    requires Consistent(s) && s.welcomeActive
    ensures var t := Step(s, KeyPressed(Enter));
      !t.welcomeActive && t.gameActive && t.name == s.name
  {
  }

  /** The filter applied to a sequence of events, in order, until the
      window closes: the closing event itself still passes the filter, and
      later events are never polled. */
  function Run(s: ScreenState, evs: seq<Event>): ScreenState
    requires Consistent(s)
    decreases |evs|
  {
    if evs == [] then s
    else
      StepKeepsConsistent(s, evs[0]);
      var t := Step(s, evs[0]);
      if !t.windowOpen then t else Run(t, evs[1..])
  }

  /** Whatever the events, the name stays well formed, so it never holds
      more than MaxNameLength - 1 letters, and exactly one screen is active. */
  lemma {:induction false} RunKeepsConsistent(s: ScreenState, evs: seq<Event>)
    requires Consistent(s)
    ensures Consistent(Run(s, evs))
    ensures |Letters(Run(s, evs).name)| <= MaxNameLength - 1
    decreases |evs|
  {
    if evs != [] {
      StepKeepsConsistent(s, evs[0]);
      if Step(s, evs[0]).windowOpen {
        RunKeepsConsistent(Step(s, evs[0]), evs[1..]);
      }
    }
  }

  /** The window is sized to the board: 32 pixels per tile column, and 32
      pixels per tile row plus a 100-pixel bar. The board's dimensions can
      be read back from the window size. */
  function WindowSize(numColumns: int, numRows: int): (size: (int, int))
    ensures size.0 % TileSize == 0 && size.0 / TileSize == numColumns
    ensures (size.1 - BarHeight) % TileSize == 0 && (size.1 - BarHeight) / TileSize == numRows
  {
    (numColumns * TileSize, numRows * TileSize + BarHeight)
  }
}
