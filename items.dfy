/**
 * The values menu items are made of (src/nickelmenu.h and src/action.h): the
 * locations an item can be shown in, the built-in actions, the actions of an
 * item in the order they run, and the result an action returns.
 */
module MenuItems {

  /** `nm_menu_location_t`; `NoLocation` is the zero value an unplaced item has. */
  datatype Location = NoLocation | Main | Reader | Browser | Library | Selection | SelectionSearch

  /** The built-in actions of `NM_ACTIONS`. */
  datatype ActionName =
    | CmdSpawn | CmdOutput | DbgSyslog | DbgError | DbgMsg | DbgToast | Kfmon | KfmonId
    | NickelSetting | NickelExtras | NickelBrowser | NickelMisc | NickelOpen | NickelWifi
    | NickelBluetooth | NickelOrientation | Power | SkipAction

  /** One `nm_menu_action_t`: the action, its argument, and whether it runs
    * after a success and after a failure. */
  datatype MenuAction = MenuAction(act: ActionName, arg: string, onSuccess: bool, onFailure: bool)

  /** One `nm_menu_item_t`; its linked list of actions is a sequence. */
  datatype MenuItem = MenuItem(loc: Location, lbl: string, actions: seq<MenuAction>)

  /** `nm_action_result_t`: nothing to show, a message dialog, a toast, or a
    * request to skip the following actions (-1 meaning all of them). */
  datatype ActionResult = Silent | Msg(msg: string) | Toast(msg: string) | Skip(count: int)
}
