/**
 * The plugin's entry points: which event asks for a redraw, how big the
 * picker is, and which key does what.
 */
module Plugin {
  import opened Ui
  import Measure

  datatype KeyModifier = Ctrl | Alt | Shift | Super

  /** The keys the picker tells apart; every other key is `OtherKey`. */
  datatype BareKey = Esc | Up | Down | Left | Right | Backspace | Enter | Tab | Char(c: char) | OtherKey

  datatype KeyWithModifier = KeyWithModifier(bareKey: BareKey, keyModifiers: set<KeyModifier>) {

    predicate HasNoModifiers()
    {
      keyModifiers == {}
    }

    /** Every one of `modifiers` is held (others may be held too). */
    predicate HasModifiers(modifiers: seq<KeyModifier>)
    {
      forall m :: m in modifiers ==> m in keyModifiers
    }
  }

  /**
   * What a key or an event asks of the picker. The tab-list operations
   * other than the two moves, and hiding the plugin, belong to the host or
   * to code outside this model, so they are named here and not carried out.
   */
  datatype Action =
    | NoAction
    | Dismiss
    | MoveSelectionUp
    | MoveSelectionDown
    | PopSearchCharacter
    | GoToSelectedTab
    | PushSearchCharacter(character: char)
    | UpdateTabs(tabInfos: seq<TabInfo>)

  /** An action, and whether the plugin asks to be drawn again. */
  datatype Response = Response(action: Action, shouldRender: bool)

  /** A key held with Ctrl, as `has_modifiers(&[KeyModifier::Ctrl])` tests it. */
  predicate CtrlChar(key: KeyWithModifier, a: char, b: char)
  {
    key.bareKey.Char? && (key.bareKey.c == a || key.bareKey.c == b) && key.HasModifiers([Ctrl])
  }

  /**
   * `handle_key`: the match arms tried in order. Esc, Ctrl+g and Ctrl+c
   * dismiss without a redraw; the arrows and Ctrl+p/k, Ctrl+n/j move; any
   * other character typed without modifiers is searched for; every other
   * key does nothing.
   */
  function HandleKey(key: KeyWithModifier): (r: Response)
    ensures r.action == Dismiss
        <==> (key.bareKey == Esc && key.HasNoModifiers()) || CtrlChar(key, 'g', 'c')
    ensures r.action == MoveSelectionUp
        <==> (key.bareKey == Up && key.HasNoModifiers()) || CtrlChar(key, 'p', 'k')
    ensures r.action == MoveSelectionDown
        <==> (key.bareKey == Down && key.HasNoModifiers()) || CtrlChar(key, 'n', 'j')
    ensures r.action == PopSearchCharacter <==> key.bareKey == Backspace && key.HasNoModifiers()
    ensures r.action == GoToSelectedTab <==> key.bareKey == Enter && key.HasNoModifiers()
    ensures r.action.PushSearchCharacter?
        <==> key.bareKey.Char? && key.HasNoModifiers()
    ensures r.action.PushSearchCharacter? ==> r.action.character == key.bareKey.c
    ensures !r.action.UpdateTabs?
    ensures r.shouldRender <==> !(r.action.NoAction? || r.action.Dismiss?)
  {
    var noModifiers := key.HasNoModifiers();
    match key.bareKey
    case Esc => if noModifiers then Response(Dismiss, false) else Response(NoAction, false)
    case Up => if noModifiers then Response(MoveSelectionUp, true) else Response(NoAction, false)
    case Down => if noModifiers then Response(MoveSelectionDown, true) else Response(NoAction, false)
    case Backspace => if noModifiers then Response(PopSearchCharacter, true) else Response(NoAction, false)
    case Enter => if noModifiers then Response(GoToSelectedTab, true) else Response(NoAction, false)
    case Char(character) =>
      assert key.HasModifiers([Ctrl]) ==> !noModifiers by {
        assert Ctrl in [Ctrl];
      }
      if (character == 'g' || character == 'c') && key.HasModifiers([Ctrl]) then Response(Dismiss, false)
      else if (character == 'p' || character == 'k') && key.HasModifiers([Ctrl]) then Response(MoveSelectionUp, true)
      else if (character == 'n' || character == 'j') && key.HasModifiers([Ctrl]) then Response(MoveSelectionDown, true)
      else if noModifiers then Response(PushSearchCharacter(character), true)
      else Response(NoAction, false)
    case _ => Response(NoAction, false)
  }

  /** The letters bound under Ctrl are searched for when typed on their own. */
  lemma PlainLettersAreTyped(c: char)
    requires c in "gcpknj"
    ensures HandleKey(KeyWithModifier(Char(c), {})) == Response(PushSearchCharacter(c), true)
  {
  }

  /** A binding under Ctrl still applies when other modifiers are held as well. */
  lemma ExtraModifiersKeepBinding()
    ensures HandleKey(KeyWithModifier(Char('n'), {Ctrl, Alt})).action == MoveSelectionDown
    ensures HandleKey(KeyWithModifier(Char('x'), {Shift})).action == NoAction
    ensures HandleKey(KeyWithModifier(Esc, {Shift})).action == NoAction
  {
    assert Ctrl in {Ctrl, Alt};
  }

  datatype Event = Key(key: KeyWithModifier) | TabUpdate(tabInfos: seq<TabInfo>) | OtherEvent

  /** `update`: a tab update always asks for a redraw, a key as its binding says, anything else never. */
  function Update(event: Event): (r: Response)
    ensures event.TabUpdate? ==> r == Response(UpdateTabs(event.tabInfos), true)
    ensures event.Key? ==> r == HandleKey(event.key)
    ensures event.OtherEvent? ==> r == Response(NoAction, false)
    ensures r.shouldRender <==> !(r.action.NoAction? || r.action.Dismiss?)
  {
    match event
    case Key(key) => HandleKey(key)
    case TabUpdate(tabInfos) => Response(UpdateTabs(tabInfos), true)
    case OtherEvent => Response(NoAction, false)
  }

  /** `(x, y, width, height)` of the picker. */
  datatype Frame = Frame(x: nat, y: nat, width: nat, height: nat)

  /** `main_menu_size`: the picker takes the whole pane, from its top-left corner. */
  function MainMenuSize(rows: nat, cols: nat): (f: Frame)
    ensures f.x == 0 && f.y == 0
    ensures f.width == cols && f.height == rows
  {
    var width := cols;
    var x := 0;
    var y := 0;
    var height := Measure.SaturatingSub(rows, y);
    Frame(x, y, width, height)
  }
}
