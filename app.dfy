/**
 * The tray app's process state and its handlers. The persisted store and the
 * in-memory `userPrefs` cache are one pair of fields (`favourites`,
 * `openAtLogin`): a store write followed by its change notifications is a
 * plain assignment followed by the menu rebuild those notifications trigger.
 * Native dialogs are split in two: opening one sets the `dialogIsOpen` guard
 * and records what its answer will do (`dialog`); `ResolveDialog` is the
 * promise settling with the user's answer. The operating system's login-item
 * state is a field, and each `setLoginItemSettings` call is logged.
 */
module App {
  import opened Wrappers
  import opened Favourites
  import opened Menu

  /** The open file dialog, if any, and what its answer will be used for. */
  datatype OpenDialog = NoDialog | ChoosingFavourite | FindingFile(index: nat)

  /** How a `showOpenDialog` promise settles. */
  datatype PickerResult = Canceled | Picked(paths: seq<string>) | PickerFailed

  /** How the duplicate notice's `showMessageBox` promise settles. */
  datatype NoticeResult = NoticeClosed | NoticeFailed

  /** How the "File Not Found" `showMessageBox` promise settles: the button index, or a failure. */
  datatype MessageResult = Response(button: int) | MessageFailed

  /** The `action` argument of `handleFile`. */
  datatype FileAction = OpenAction | ShowAction

  /** The shell call `handleFile` makes for a file that exists. */
  datatype ShellCall = NoShellCall | OpenPathCall(path: string) | ShowItemInFolderCall(path: string)

  /** The duplicate notice an add shows, if any. */
  function Notice(favs: seq<Favourite>, ps: seq<string>): (n: Option<string>)
    ensures n.Some? <==> exists k :: 0 <= k < |ps| && ps[k] in PathsOf(favs)
  {
    var rejected := Rejected(favs, ps);
    assert rejected != [] ==> rejected[0] in rejected;
    if rejected != [] then Some(RejectedMessage(rejected)) else None
  }

  /** The list after `addToFavourites`: the batch is committed unless the duplicate notice failed. */
  function AddOutcome(favs: seq<Favourite>, ps: seq<string>, isDir: string -> bool, notice: NoticeResult): seq<Favourite>
  {
    if Rejected(favs, ps) != [] && notice == NoticeFailed then favs else Added(favs, ps, isDir)
  }

  /** The list once the open dialog `d` settles with `result`. */
  function AfterDialog(d: OpenDialog, result: PickerResult, favs: seq<Favourite>,
                       isDir: string -> bool, notice: NoticeResult): seq<Favourite>
  {
    match d
    case NoDialog => favs
    case ChoosingFavourite =>
      if result.Picked? then AddOutcome(favs, result.paths, isDir, notice) else favs
    case FindingFile(i) =>
      if result.Picked? && |result.paths| > 0 && i <= |favs|
      then Relocated(favs, i, FavouriteFor(result.paths[0], isDir))
      else favs
  }

  /** A cancelled or failed dialog changes nothing. */
  lemma AfterDialogUnpicked(d: OpenDialog, result: PickerResult, favs: seq<Favourite>,
                            isDir: string -> bool, notice: NoticeResult)
    requires !result.Picked?
    ensures AfterDialog(d, result, favs, isDir, notice) == favs
  {
  }

  /** An add keeps the old list as a prefix. */
  lemma AfterDialogAdds(result: PickerResult, favs: seq<Favourite>,
                        isDir: string -> bool, notice: NoticeResult)
    ensures var r := AfterDialog(ChoosingFavourite, result, favs, isDir, notice);
      |favs| <= |r| && r[..|favs|] == favs
  {
    if result.Picked? {
      AddedExtends(favs, result.paths, isDir);
    }
  }

  /**
   * A relocation changes at most the relocated index, which then holds the
   * record for the first picked path; it keeps the length, except that the
   * index just past the end appends that record.
   */
  lemma AfterDialogRelocates(i: nat, result: PickerResult, favs: seq<Favourite>,
                             isDir: string -> bool, notice: NoticeResult)
    ensures var r := AfterDialog(FindingFile(i), result, favs, isDir, notice);
      var moved := result.Picked? && |result.paths| > 0 && i <= |favs|;
      |r| == (if moved && i == |favs| then |favs| + 1 else |favs|)
      && (forall k :: 0 <= k < |favs| && k != i ==> r[k] == favs[k])
      && (moved ==> r[i] == FavouriteFor(result.paths[0], isDir))
  {
  }

  class TrayApp {
    /** The stored favourites, in display order. */
    var favourites: seq<Favourite>
    /** The stored `pref_open_at_login`. */
    var openAtLogin: bool
    /** Whether the operating system currently opens the app at login. */
    var loginItemEnabled: bool
    /** The arguments of every `setLoginItemSettings` call so far. */
    var loginWrites: seq<bool>
    var dialogIsOpen: bool
    var dialog: OpenDialog
    /** The tray's context menu (icons aside). */
    var menu: seq<MenuItem>

    /** The guard is set exactly while a dialog is pending; the menu reflects the stored state. */
    ghost predicate Valid()
      reads this
    {
      (dialogIsOpen <==> dialog != NoDialog)
      && menu == MenuTemplate(favourites, openAtLogin)
    }

    /**
     * The `ready` handler: load the stored preferences, build the menu, then
     * reconcile the login item with the stored preference.
     */
    constructor (storedFavourites: seq<Favourite>, storedOpenAtLogin: bool, osOpenAtLogin: bool)
      ensures Valid() && !dialogIsOpen
      ensures favourites == storedFavourites && openAtLogin == storedOpenAtLogin
      ensures loginItemEnabled == storedOpenAtLogin
      ensures loginWrites == if osOpenAtLogin != storedOpenAtLogin then [storedOpenAtLogin] else []
    {
      favourites := storedFavourites;
      openAtLogin := storedOpenAtLogin;
      loginItemEnabled := osOpenAtLogin;
      loginWrites := [];
      dialogIsOpen := false;
      dialog := NoDialog;
      menu := [];
      new;
      BuildMenu();
      SetupAppSettings();
    }

    /** `buildMenu`: the template for the current favourites with the checkbox unchecked, then `loadPreferences`. */
    method BuildMenu()
      modifies this`menu
      ensures menu == MenuTemplate(favourites, openAtLogin)
    {
      var m := MenuTemplate(favourites, false);
      m := LoadPreferences(m, UserPrefs(favourites, openAtLogin));
      PreferencesRestored(favourites, false, openAtLogin);
      menu := m;
    }

    /** `setLoginSettings(status)`. */
    method SetLoginSettings(status: bool)
      modifies this`loginItemEnabled, this`loginWrites
      ensures loginItemEnabled == status
      ensures loginWrites == old(loginWrites) + [status]
    {
      loginItemEnabled := status;
      loginWrites := loginWrites + [status];
    }

    /** `setupAppSettings`: one write when the OS state differs from the stored preference, none otherwise. */
    method SetupAppSettings()
      modifies this`loginItemEnabled, this`loginWrites
      ensures loginItemEnabled == openAtLogin
      ensures loginWrites == old(loginWrites) + (if old(loginItemEnabled) != openAtLogin then [openAtLogin] else [])
    {
      if loginItemEnabled != openAtLogin {
        SetLoginSettings(openAtLogin);
      }
    }

    /**
     * The "Open at Login" checkbox click: the checkbox flips, its new state is
     * stored, and the change listener applies it to the login item.
     */
    method ToggleOpenAtLogin()
      requires Valid()
      modifies this`openAtLogin, this`menu, this`loginItemEnabled, this`loginWrites
      ensures Valid()
      ensures openAtLogin == !old(openAtLogin)
      ensures loginItemEnabled == openAtLogin
      ensures loginWrites == old(loginWrites) + [openAtLogin]
    {
      var checked := !openAtLogin;
      SetLoginChecked(favourites, openAtLogin, checked);
      menu := SetChecked(menu, PrefOpenAtLogin, checked);
      openAtLogin := checked;
      SetLoginSettings(checked);
    }

    /** `storage.set("favourites", updated)`: the cache follows and the menu is rebuilt from it. */
    method StoreFavourites(updated: seq<Favourite>)
      requires Valid()
      modifies this`favourites, this`menu
      ensures Valid()
      ensures favourites == updated
    {
      favourites := updated;
      BuildMenu();
    }

    /**
     * `addToFavourites(paths)`, reached from the Add dialog and from files
     * dropped on the tray icon. Returns the duplicate notice it shows.
     */
    method AddToFavourites(paths: seq<string>, isDir: string -> bool, notice: NoticeResult)
      returns (message: Option<string>)
      requires Valid()
      modifies this`favourites, this`menu
      ensures Valid()
      ensures message == Notice(old(favourites), paths)
      ensures favourites == AddOutcome(old(favourites), paths, isDir, notice)
    {
      var rejected, newPaths := Partition(favourites, paths);
      message := None;
      if |rejected| > 0 {
        message := Some(RejectedMessage(rejected));
        if notice == NoticeFailed {
          return;
        }
      }
      var updated := AppendRecords(favourites, newPaths, isDir);
      StoreFavourites(updated);
    }

    /** `chooseFavourite`: opens the Add dialog unless a dialog is already open. */
    method ChooseFavourite()
      requires Valid()
      modifies this`dialogIsOpen, this`dialog
      ensures Valid() && dialogIsOpen
      ensures dialog == if old(dialogIsOpen) then old(dialog) else ChoosingFavourite
    {
      if !dialogIsOpen {
        dialogIsOpen := true;
        dialog := ChoosingFavourite;
      }
    }

    /** `findFile(i)`: opens the relocation dialog for index `i` unless a dialog is already open. */
    method FindFile(i: nat)
      requires Valid()
      modifies this`dialogIsOpen, this`dialog
      ensures Valid() && dialogIsOpen
      ensures dialog == if old(dialogIsOpen) then old(dialog) else FindingFile(i)
    {
      if !dialogIsOpen {
        dialogIsOpen := true;
        dialog := FindingFile(i);
      }
    }

    /** The relocation branch of `findFile`: entry `i` is replaced by the record for `path`. */
    method Relocate(i: nat, path: string, isDir: string -> bool)
      requires Valid() && i <= |favourites|
      modifies this`favourites, this`menu
      ensures Valid()
      ensures favourites == Relocated(old(favourites), i, FavouriteFor(path, isDir))
    {
      var relocated := FavouriteFor(path, isDir);
      StoreFavourites(Relocated(favourites, i, relocated));
    }

    /**
     * The open dialog's promise settles. On every outcome (cancel, a pick,
     * an error) the guard is cleared; a pick adds the batch or relocates the
     * entry. A relocation with no picked path fails inside the handler and
     * counts as an error.
     */
    method ResolveDialog(result: PickerResult, isDir: string -> bool, notice: NoticeResult)
      returns (message: Option<string>)
      requires Valid() && dialogIsOpen
      modifies this`dialogIsOpen, this`dialog, this`favourites, this`menu
      ensures Valid() && !dialogIsOpen && dialog == NoDialog
      ensures favourites == AfterDialog(old(dialog), result, old(favourites), isDir, notice)
      ensures message == if old(dialog) == ChoosingFavourite && result.Picked? then Notice(old(favourites), result.paths) else None
    {
      message := None;
      if dialog == ChoosingFavourite {
        if result.Picked? {
          message := AddToFavourites(result.paths, isDir, notice);
        }
      } else if dialog.FindingFile? {
        var i := dialog.index;
        if result.Picked? && |result.paths| > 0 && i <= |favourites| {
          Relocate(i, result.paths[0], isDir);
        }
      }
      dialogIsOpen := false;
      dialog := NoDialog;
    }

    /** `removeFavourite(i)`: only a non-negative index writes the store. */
    method RemoveFavourite(i: int)
      requires Valid()
      modifies this`favourites, this`menu
      ensures Valid()
      ensures favourites == Removed(old(favourites), i)
    {
      if i > -1 {
        StoreFavourites(Removed(favourites, i));
      }
    }

    /** `clearFavourites`. */
    method ClearFavourites()
      requires Valid()
      modifies this`favourites, this`menu
      ensures Valid() && favourites == []
    {
      StoreFavourites([]);
    }

    /**
     * `handleFile(path, i, action)`: an existing file is opened or revealed
     * by the shell; for a missing one the user's answer to "File Not Found"
     * opens the relocation dialog (button 0) or removes the entry (button 1).
     */
    method HandleFile(path: string, i: nat, action: FileAction, fileExists: bool, answer: MessageResult)
      returns (call: ShellCall)
      requires Valid()
      modifies this`dialogIsOpen, this`dialog, this`favourites, this`menu
      ensures Valid()
      ensures call == if !fileExists then NoShellCall else if action == OpenAction then OpenPathCall(path) else ShowItemInFolderCall(path)
      ensures favourites == if !fileExists && answer == Response(1) then Removed(old(favourites), i) else old(favourites)
      ensures dialogIsOpen == (old(dialogIsOpen) || (!fileExists && answer == Response(0)))
      ensures dialog == if !old(dialogIsOpen) && !fileExists && answer == Response(0) then FindingFile(i) else old(dialog)
    {
      if !fileExists {
        call := NoShellCall;
        if answer == Response(0) {
          FindFile(i);
        } else if answer == Response(1) {
          RemoveFavourite(i);
        }
        return;
      }
      call := if action == OpenAction then OpenPathCall(path) else ShowItemInFolderCall(path);
    }
  }
}
