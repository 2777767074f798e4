/**
 * The tray menu as a template value (`buildMenu`, `getFavouriteMenuItem`),
 * without icons, and the pass that restores the preference checkboxes after
 * a rebuild (`loadPreferences`). A click handler is represented by the
 * command it runs, carrying the path and index its closure captured.
 */
module Menu {
  import opened Favourites

  // Labels of the string table.
  const ADD := "Add"
  const CLEAR_ALL := "Clear All"
  const PREFERENCES := "Preferences"
  const OPEN_AT_LOGIN := "Open at Login"
  const QUIT := "Quit"
  const REMOVE := "Remove"
  const OPEN := "Open"
  const OPEN_IN_FOLDER := "Reveal in Finder"

  /** Id (and preference key) of the "Open at Login" checkbox. */
  const PrefOpenAtLogin := "pref_open_at_login"

  datatype Command =
    | ChooseFavourite
    | OpenFile(path: string, index: nat)
    | RevealFile(path: string, index: nat)
    | RemoveFavourite(index: nat)
    | ClearFavourites
    | QuitApp            // the `quit` role

  /** A template entry; a checkbox's click stores its state under its id. */
  datatype MenuItem =
    | Separator
    | Action(title: string, accelerator: string, command: Command)
    | Submenu(title: string, items: seq<MenuItem>)
    | Checkbox(id: string, title: string, checked: bool)

  /** `getFavouriteMenuItem(obj, i)` without the icon: Open, Reveal (not for folders), a separator, Remove. */
  function FavouriteMenuItem(obj: Favourite, i: nat): (m: MenuItem)
    ensures m.Submenu? && m.title == obj.name
  {
    var open := Action(OPEN, "", OpenFile(obj.path, i));
    var show := Action(OPEN_IN_FOLDER, "", RevealFile(obj.path, i));
    var remove := Action(REMOVE, "", RemoveFavourite(i));
    Submenu(obj.name, if obj.kind == Dir then [open, Separator, remove] else [open, show, Separator, remove])
  }

  /** `Promise.all(favourites.map(getFavouriteMenuItem))`: one item per favourite, in list order. */
  function FavouriteItems(favs: seq<Favourite>): (items: seq<MenuItem>)
    ensures |items| == |favs|
    ensures forall k :: 0 <= k < |favs| ==> items[k] == FavouriteMenuItem(favs[k], k)
  {
    seq(|favs|, k requires 0 <= k < |favs| => FavouriteMenuItem(favs[k], k))
  }

  /** The Add entry and its separator, which open every menu. */
  function AddBlock(): seq<MenuItem>
  {
    [Action(ADD, "Command+N", ChooseFavourite), Separator]
  }

  /** The separator and Clear All entry after the favourites. */
  function ClearBlock(): seq<MenuItem>
  {
    [Separator, Action(CLEAR_ALL, "Command+Backspace", ClearFavourites)]
  }

  /** Preferences with the login checkbox showing `checked`, a separator and Quit. */
  function ClosingBlock(checked: bool): seq<MenuItem>
  {
    [Submenu(PREFERENCES, [Checkbox(PrefOpenAtLogin, OPEN_AT_LOGIN, checked)]),
     Separator,
     Action(QUIT, "Command+Q", QuitApp)]
  }

  /** The part that is present only when there are favourites. */
  function FavouritesBlock(favs: seq<Favourite>): seq<MenuItem>
  {
    if |favs| > 0 then FavouriteItems(favs) + ClearBlock() else []
  }

  /**
   * The template `buildMenu` assembles, with the login checkbox showing
   * `checked` (the literal template has it unchecked).
   */
  function MenuTemplate(favs: seq<Favourite>, checked: bool): seq<MenuItem>
  {
    AddBlock() + FavouritesBlock(favs) + ClosingBlock(checked)
  }

  /** With no favourites the menu is Add, a separator, Preferences, a separator and Quit. */
  lemma EmptyMenu(checked: bool)
    ensures MenuTemplate([], checked) ==
      [Action(ADD, "Command+N", ChooseFavourite), Separator,
       Submenu(PREFERENCES, [Checkbox(PrefOpenAtLogin, OPEN_AT_LOGIN, checked)]),
       Separator, Action(QUIT, "Command+Q", QuitApp)]
  {
  }

  /**
   * With favourites: Add and a separator, then the favourites' items in list
   * order, each labelled with the favourite's name, then a separator and
   * Clear All, then the closing block.
   */
  lemma NonEmptyMenu(favs: seq<Favourite>, checked: bool)
    requires favs != []
    ensures var m := MenuTemplate(favs, checked);
      |m| == |favs| + 7
      && m[..2] == AddBlock()
      && (forall k :: 0 <= k < |favs| ==> m[2 + k] == FavouriteMenuItem(favs[k], k) && m[2 + k].title == favs[k].name)
      && m[|favs| + 2] == Separator
      && m[|favs| + 3] == Action(CLEAR_ALL, "Command+Backspace", ClearFavourites)
      && m[|favs| + 4..] == ClosingBlock(checked)
  {
    var m := MenuTemplate(favs, checked);
    var items := FavouriteItems(favs);
    assert m == AddBlock() + items + ClearBlock() + ClosingBlock(checked);
    forall k | 0 <= k < |favs| ensures m[2 + k] == items[k] {
    }
  }

  /** The commands an item's clicks can run, its submenus included, in menu order. */
  function ItemCommands(item: MenuItem): seq<Command>
    decreases item
  {
    match item
    case Action(_, _, c) => [c]
    case Submenu(_, sub) => Commands(sub)
    case _ => []
  }

  function Commands(items: seq<MenuItem>): seq<Command>
    decreases items
  {
    if items == [] then [] else ItemCommands(items[0]) + Commands(items[1..])
  }

  lemma CommandsSingle(x: MenuItem)
    ensures Commands([x]) == ItemCommands(x)
  {
    assert [x][1..] == [];
  }

  lemma {:induction false} CommandsAppend(a: seq<MenuItem>, b: seq<MenuItem>)
    ensures Commands(a + b) == Commands(a) + Commands(b)
  {
    if a != [] {
      CommandsAppend(a[1..], b);
      assert (a + b)[1..] == a[1..] + b;
    } else {
      assert a + b == b;
    }
  }

  /** A favourite's submenu opens its path, reveals it unless it is a folder, and removes its index. */
  lemma FavouriteCommands(obj: Favourite, i: nat)
    ensures var cs := ItemCommands(FavouriteMenuItem(obj, i));
      OpenFile(obj.path, i) in cs && RemoveFavourite(i) in cs
      && (RevealFile(obj.path, i) in cs <==> obj.kind != Dir)
      && cs == if obj.kind == Dir then [OpenFile(obj.path, i), RemoveFavourite(i)]
               else [OpenFile(obj.path, i), RevealFile(obj.path, i), RemoveFavourite(i)]
  {
    var open := Action(OPEN, "", OpenFile(obj.path, i));
    var show := Action(OPEN_IN_FOLDER, "", RevealFile(obj.path, i));
    var remove := Action(REMOVE, "", RemoveFavourite(i));
    CommandsSingle(open);
    CommandsSingle(show);
    CommandsSingle(Separator);
    CommandsSingle(remove);
    CommandsAppend([open], [Separator]);
    CommandsAppend([open] + [Separator], [remove]);
    CommandsAppend([open], [show]);
    CommandsAppend([open] + [show], [Separator]);
    CommandsAppend([open] + [show] + [Separator], [remove]);
    if obj.kind == Dir {
      assert FavouriteMenuItem(obj, i).items == [open] + [Separator] + [remove];
    } else {
      assert FavouriteMenuItem(obj, i).items == [open] + [show] + [Separator] + [remove];
    }
  }

  /** Every path or index carried by a favourite's command of the menu designates that favourite. */
  predicate Targets(favs: seq<Favourite>, c: Command)
  {
    match c
    case OpenFile(p, i) => i < |favs| && favs[i].path == p
    case RevealFile(p, i) => i < |favs| && favs[i].path == p && favs[i].kind != Dir
    case RemoveFavourite(i) => i < |favs|
    case _ => true
  }

  lemma {:induction false} FavouriteItemsTargets(favs: seq<Favourite>, lo: nat)
    requires lo <= |favs|
    ensures forall c :: c in Commands(FavouriteItems(favs)[lo..]) ==> Targets(favs, c)
    decreases |favs| - lo
  {
    var items := FavouriteItems(favs);
    if lo < |favs| {
      FavouriteItemsTargets(favs, lo + 1);
      var rest := items[lo..];
      assert rest[1..] == items[lo + 1..];
      assert Commands(rest) == ItemCommands(items[lo]) + Commands(items[lo + 1..]);
      FavouriteCommands(favs[lo], lo);
      forall c | c in ItemCommands(items[lo]) ensures Targets(favs, c) {
      }
    } else {
      assert items[lo..] == [];
    }
  }

  /** The item at index `k` contributes its commands to the whole list's. */
  lemma CommandsOfElement(items: seq<MenuItem>, k: nat, c: Command)
    requires k < |items| && c in ItemCommands(items[k])
    ensures c in Commands(items)
  {
    CommandsAppend(items[..k], items[k..]);
    assert items[..k] + items[k..] == items;
    assert Commands(items[k..]) == ItemCommands(items[k]) + Commands(items[k..][1..]);
  }

  /** The commands of the fixed blocks. */
  lemma BlockCommands(checked: bool)
    ensures Commands(AddBlock()) == [ChooseFavourite]
    ensures Commands(ClearBlock()) == [ClearFavourites]
    ensures Commands(ClosingBlock(checked)) == [QuitApp]
  {
    var add := Action(ADD, "Command+N", ChooseFavourite);
    var clear := Action(CLEAR_ALL, "Command+Backspace", ClearFavourites);
    var prefs := Submenu(PREFERENCES, [Checkbox(PrefOpenAtLogin, OPEN_AT_LOGIN, checked)]);
    var quit := Action(QUIT, "Command+Q", QuitApp);
    CommandsSingle(add);
    CommandsSingle(Separator);
    CommandsSingle(clear);
    CommandsSingle(prefs);
    CommandsSingle(quit);
    CommandsSingle(Checkbox(PrefOpenAtLogin, OPEN_AT_LOGIN, checked));
    CommandsAppend([add], [Separator]);
    assert AddBlock() == [add] + [Separator];
    CommandsAppend([Separator], [clear]);
    assert ClearBlock() == [Separator] + [clear];
    CommandsAppend([prefs], [Separator]);
    CommandsAppend([prefs] + [Separator], [quit]);
    assert ClosingBlock(checked) == [prefs] + [Separator] + [quit];
  }

  /** The commands of a whole menu: Add, the favourites' commands, Clear All when there are favourites, Quit. */
  lemma TemplateCommands(favs: seq<Favourite>, checked: bool)
    ensures Commands(MenuTemplate(favs, checked)) ==
      [ChooseFavourite] + (if |favs| > 0 then Commands(FavouriteItems(favs)) + [ClearFavourites] else []) + [QuitApp]
  {
    BlockCommands(checked);
    CommandsAppend(AddBlock() + FavouritesBlock(favs), ClosingBlock(checked));
    CommandsAppend(AddBlock(), FavouritesBlock(favs));
    CommandsAppend(FavouriteItems(favs), ClearBlock());
  }

  /**
   * The commands of a menu built from `favs` carry valid indices whose path
   * is the favourite at that index, and every favourite can be opened and
   * removed from it.
   */
  lemma MenuCommandsTarget(favs: seq<Favourite>, checked: bool)
    ensures forall c :: c in Commands(MenuTemplate(favs, checked)) ==> Targets(favs, c)
    ensures forall k :: 0 <= k < |favs| ==>
      OpenFile(favs[k].path, k) in Commands(MenuTemplate(favs, checked))
      && RemoveFavourite(k) in Commands(MenuTemplate(favs, checked))
  {
    var items := FavouriteItems(favs);
    TemplateCommands(favs, checked);
    FavouriteItemsTargets(favs, 0);
    assert items[0..] == items;
    forall k | 0 <= k < |favs|
      ensures OpenFile(favs[k].path, k) in Commands(items) && RemoveFavourite(k) in Commands(items)
    {
      FavouriteCommands(favs[k], k);
      CommandsOfElement(items, k, OpenFile(favs[k].path, k));
      CommandsOfElement(items, k, RemoveFavourite(k));
    }
  }

  /** The path a top-level item opens, when it is a favourite's submenu. */
  function OpenedBy(item: MenuItem): seq<string>
  {
    match item
    case Submenu(_, sub) =>
      if |sub| > 0 && sub[0].Action? && sub[0].command.OpenFile? then [sub[0].command.path] else []
    case _ => []
  }

  function OpenedPaths(items: seq<MenuItem>): seq<string>
  {
    if items == [] then [] else OpenedBy(items[0]) + OpenedPaths(items[1..])
  }

  lemma OpenedPathsSingle(x: MenuItem)
    ensures OpenedPaths([x]) == OpenedBy(x)
  {
    assert [x][1..] == [];
  }

  lemma {:induction false} OpenedPathsAppend(a: seq<MenuItem>, b: seq<MenuItem>)
    ensures OpenedPaths(a + b) == OpenedPaths(a) + OpenedPaths(b)
  {
    if a != [] {
      OpenedPathsAppend(a[1..], b);
      assert (a + b)[1..] == a[1..] + b;
    } else {
      assert a + b == b;
    }
  }

  lemma {:induction false} OpenedPathsOfItems(favs: seq<Favourite>, lo: nat)
    requires lo <= |favs|
    ensures OpenedPaths(FavouriteItems(favs)[lo..]) == PathsOf(favs)[lo..]
    decreases |favs| - lo
  {
    var items := FavouriteItems(favs);
    if lo < |favs| {
      OpenedPathsOfItems(favs, lo + 1);
      assert items[lo..][1..] == items[lo + 1..];
      assert PathsOf(favs)[lo..] == [favs[lo].path] + PathsOf(favs)[lo + 1..];
    }
  }

  lemma BlockOpenedPaths(checked: bool)
    ensures OpenedPaths(AddBlock()) == []
    ensures OpenedPaths(ClearBlock()) == []
    ensures OpenedPaths(ClosingBlock(checked)) == []
  {
    var add := Action(ADD, "Command+N", ChooseFavourite);
    var clear := Action(CLEAR_ALL, "Command+Backspace", ClearFavourites);
    var prefs := Submenu(PREFERENCES, [Checkbox(PrefOpenAtLogin, OPEN_AT_LOGIN, checked)]);
    var quit := Action(QUIT, "Command+Q", QuitApp);
    OpenedPathsSingle(add);
    OpenedPathsSingle(Separator);
    OpenedPathsSingle(clear);
    OpenedPathsSingle(prefs);
    OpenedPathsSingle(quit);
    OpenedPathsAppend([add], [Separator]);
    assert AddBlock() == [add] + [Separator];
    OpenedPathsAppend([Separator], [clear]);
    assert ClearBlock() == [Separator] + [clear];
    OpenedPathsAppend([prefs], [Separator]);
    OpenedPathsAppend([prefs] + [Separator], [quit]);
    assert ClosingBlock(checked) == [prefs] + [Separator] + [quit];
  }

  /** The favourites' paths can be read back from the menu, in list order. */
  lemma MenuOpensFavourites(favs: seq<Favourite>, checked: bool)
    ensures OpenedPaths(MenuTemplate(favs, checked)) == PathsOf(favs)
  {
    var items := FavouriteItems(favs);
    BlockOpenedPaths(checked);
    OpenedPathsAppend(AddBlock() + FavouritesBlock(favs), ClosingBlock(checked));
    OpenedPathsAppend(AddBlock(), FavouritesBlock(favs));
    OpenedPathsAppend(items, ClearBlock());
    OpenedPathsOfItems(favs, 0);
    assert items[0..] == items;
    assert PathsOf(favs)[0..] == PathsOf(favs);
  }

  /** `menu.getMenuItemById(id).checked = b` on the checkboxes with that id. */
  function SetCheckedItem(item: MenuItem, id: string, b: bool): MenuItem
    decreases item
  {
    match item
    case Checkbox(i, l, c) => if i == id then Checkbox(i, l, b) else item
    case Submenu(l, sub) => Submenu(l, SetChecked(sub, id, b))
    case _ => item
  }

  function SetChecked(items: seq<MenuItem>, id: string, b: bool): (r: seq<MenuItem>)
    decreases items
  {
    if items == [] then [] else [SetCheckedItem(items[0], id, b)] + SetChecked(items[1..], id, b)
  }

  lemma SetCheckedSingle(x: MenuItem, id: string, b: bool)
    ensures SetChecked([x], id, b) == [SetCheckedItem(x, id, b)]
  {
    assert [x][1..] == [];
  }

  lemma {:induction false} SetCheckedAppend(a: seq<MenuItem>, c: seq<MenuItem>, id: string, b: bool)
    ensures SetChecked(a + c, id, b) == SetChecked(a, id, b) + SetChecked(c, id, b)
  {
    if a != [] {
      SetCheckedAppend(a[1..], c, id, b);
      assert (a + c)[1..] == a[1..] + c;
    } else {
      assert a + c == c;
    }
  }

  lemma {:induction false} SetCheckedUnaffected(items: seq<MenuItem>, id: string, b: bool)
    requires forall k :: 0 <= k < |items| ==> SetCheckedItem(items[k], id, b) == items[k]
    ensures SetChecked(items, id, b) == items
  {
    if items != [] {
      SetCheckedUnaffected(items[1..], id, b);
      assert [items[0]] + items[1..] == items;
    }
  }

  lemma BlockSetChecked(b: bool)
    ensures SetChecked(AddBlock(), PrefOpenAtLogin, b) == AddBlock()
    ensures SetChecked(ClearBlock(), PrefOpenAtLogin, b) == ClearBlock()
  {
    SetCheckedUnaffected(AddBlock(), PrefOpenAtLogin, b);
    SetCheckedUnaffected(ClearBlock(), PrefOpenAtLogin, b);
  }

  lemma ClosingBlockSetChecked(c: bool, b: bool)
    ensures SetChecked(ClosingBlock(c), PrefOpenAtLogin, b) == ClosingBlock(b)
  {
    var login := Checkbox(PrefOpenAtLogin, OPEN_AT_LOGIN, c);
    var prefs := Submenu(PREFERENCES, [login]);
    var quit := Action(QUIT, "Command+Q", QuitApp);
    SetCheckedSingle(login, PrefOpenAtLogin, b);
    SetCheckedSingle(prefs, PrefOpenAtLogin, b);
    SetCheckedSingle(Separator, PrefOpenAtLogin, b);
    SetCheckedSingle(quit, PrefOpenAtLogin, b);
    SetCheckedAppend([prefs], [Separator], PrefOpenAtLogin, b);
    SetCheckedAppend([prefs] + [Separator], [quit], PrefOpenAtLogin, b);
    assert ClosingBlock(c) == [prefs] + [Separator] + [quit];
  }

  /** Setting the login checkbox of a built menu gives the menu built with that state; nothing else changes. */
  lemma SetLoginChecked(favs: seq<Favourite>, c: bool, b: bool)
    ensures SetChecked(MenuTemplate(favs, c), PrefOpenAtLogin, b) == MenuTemplate(favs, b)
  {
    var items := FavouriteItems(favs);
    BlockSetChecked(b);
    ClosingBlockSetChecked(c, b);
    SetCheckedAppend(AddBlock() + FavouritesBlock(favs), ClosingBlock(c), PrefOpenAtLogin, b);
    SetCheckedAppend(AddBlock(), FavouritesBlock(favs), PrefOpenAtLogin, b);
    SetCheckedAppend(items, ClearBlock(), PrefOpenAtLogin, b);
    forall k | 0 <= k < |items| ensures SetCheckedItem(items[k], PrefOpenAtLogin, b) == items[k] {
      SetCheckedUnaffected(items[k].items, PrefOpenAtLogin, b);
    }
    SetCheckedUnaffected(items, PrefOpenAtLogin, b);
  }

  /** A stored preference value: the favourites list or a flag. */
  datatype PrefValue = FavouritesValue(list: seq<Favourite>) | Flag(value: bool)

  /** The in-memory preferences, keyed in the order of the defaults object. */
  function UserPrefs(favs: seq<Favourite>, openAtLogin: bool): seq<(string, PrefValue)>
  {
    [("favourites", FavouritesValue(favs)), (PrefOpenAtLogin, Flag(openAtLogin))]
  }

  /** The key matches `^pref_`. */
  predicate IsPrefKey(key: string)
  {
    |key| >= 5 && key[..5] == "pref_"
  }

  /** One step of `loadPreferences`: a boolean `pref_` entry sets the checkbox with its key as id. */
  function ApplyPreference(menu: seq<MenuItem>, entry: (string, PrefValue)): seq<MenuItem>
  {
    if IsPrefKey(entry.0) && entry.1.Flag? then SetChecked(menu, entry.0, entry.1.value) else menu
  }

  function ApplyPreferences(menu: seq<MenuItem>, prefs: seq<(string, PrefValue)>): seq<MenuItem>
    decreases prefs
  {
    if prefs == [] then menu else ApplyPreferences(ApplyPreference(menu, prefs[0]), prefs[1..])
  }

  /** `loadPreferences`: walks the preferences in order, setting the matching checkboxes. */
  method LoadPreferences(menu: seq<MenuItem>, prefs: seq<(string, PrefValue)>) returns (m: seq<MenuItem>)
    ensures m == ApplyPreferences(menu, prefs)
  {
    m := menu;
    for i := 0 to |prefs|
      invariant ApplyPreferences(m, prefs[i..]) == ApplyPreferences(menu, prefs)
    {
      assert prefs[i..][1..] == prefs[i + 1..];
      var (key, value) := prefs[i];
      if IsPrefKey(key) && value.Flag? {
        m := SetChecked(m, key, value.value);
      }
    }
  }

  /** After `loadPreferences`, a freshly built menu's login checkbox shows the stored preference. */
  lemma PreferencesRestored(favs: seq<Favourite>, c: bool, openAtLogin: bool)
    ensures ApplyPreferences(MenuTemplate(favs, c), UserPrefs(favs, openAtLogin)) == MenuTemplate(favs, openAtLogin)
  {
    var m0 := MenuTemplate(favs, c);
    var prefs := UserPrefs(favs, openAtLogin);
    assert !IsPrefKey("favourites") by {
      assert "favourites"[..5][0] == 'f';
    }
    assert ApplyPreference(m0, prefs[0]) == m0;
    assert IsPrefKey(PrefOpenAtLogin);
    SetLoginChecked(favs, c, openAtLogin);
    var rest := prefs[1..];
    assert rest == [(PrefOpenAtLogin, Flag(openAtLogin))];
    assert ApplyPreference(m0, rest[0]) == MenuTemplate(favs, openAtLogin);
    assert rest[1..] == [];
    assert ApplyPreferences(m0, rest) == MenuTemplate(favs, openAtLogin);
  }
}
