/**
 * The menu logic of src/nickelmenu.cc: running the actions of an item
 * (`nm_menu_item_do`), the one-shot slot that carries a selection-menu item
 * to the search hook (`_nm_menu_hook4_item`), the bounded main-menu config
 * key (`nm_main_menu_config`), and the rules by which items are injected into
 * a Qt menu (`_nm_menu_inject`). Actions, the argument transform, the config
 * lookup and the Qt menu are abstracted: an action call is a function of its
 * position and argument giving its result and the pending error, and a menu
 * is the sequence of its entries.
 */
module NickelMenu {
  import opened Wrappers
  import opened Text
  import opened MenuItems

  // ---------------------------------------------------------------------
  // Running an item

  /** What calling an action leaves behind: its result (None for NULL) and
    * the error `nm_err()` then takes (None when no error is pending). */
  datatype Reply = Reply(res: Option<ActionResult>, err: Option<string>)

  /** What running an item is seen to do: an action called with an argument,
    * a message dialog, or a toast. */
  datatype Effect = Invoke(index: nat, arg: string) | Dialog(title: string, text: string) | ShowToast(text: string)

  /** The world an item runs in: the reply of the action at each position to
    * each argument; the argument transform, if any, giving the new argument or
    * NULL with the error it left pending; and whether a main window exists to
    * show toasts on. */
  datatype Env = Env(perform: (nat, string) -> Reply,
                     transform: Option<string -> Result<string, Option<string>>>,
                     hasWindow: bool)

  /** Calling action `i`: the argument it was invoked with, if it was, and the
    * reply. A transform returning NULL means the action is not called and the
    * transform's error is what `nm_err()` takes. */
  datatype Call = Call(invoked: Option<string>, reply: Reply)

  function CallAction(env: Env, i: nat, a: MenuAction): Call {
    if env.transform.None? then Call(Some(a.arg), env.perform(i, a.arg))
    else
      match env.transform.value(a.arg)
      case Ok(arg) => Call(Some(arg), env.perform(i, arg))
      case Err(e) => Call(None, Reply(None, e))
  }

  /** The variables of the loop of `nm_menu_item_do`, and the effects so far. */
  datatype RunState = RunState(success: bool, skip: int, err: Option<string>, effects: seq<Effect>)

  const Start: RunState := RunState(true, 0, None, [])

  /** An action reached with no skip pending runs when its flag for the
    * current outcome is set. */
  predicate Gate(success: bool, a: MenuAction) {
    (success && a.onSuccess) || (!success && a.onFailure)
  }

  /** What a result does: a message opens a dialog titled with the item's
    * label, a toast needs the main window, a skip result sets the skip count. */
  function Apply(lbl: string, st: RunState, res: ActionResult, hasWindow: bool): RunState {
    match res
    case Silent => st
    case Msg(m) => st.(effects := st.effects + [Dialog(lbl, m)])
    case Toast(m) => if hasWindow then st.(effects := st.effects + [ShowToast(m)]) else st
    case Skip(k) => st.(skip := k)
  }

  /** One iteration of the loop of `nm_menu_item_do`, on action `i`. */
  function StepAt(item: MenuItem, env: Env, i: nat, st: RunState): RunState
    requires i < |item.actions|
  {
    var a := item.actions[i];
    if st.skip != 0 then st.(skip := if st.skip > 0 then st.skip - 1 else st.skip)
    else if !Gate(st.success, a) then st
    else
      var c := CallAction(env, i, a);
      var effects := st.effects + (if c.invoked.Some? then [Invoke(i, c.invoked.value)] else []);
      var res, err := c.reply.res, c.reply.err;
      if err.None? && res.Some? && res.value.Skip? then
        Apply(item.lbl, RunState(st.success, st.skip, err, effects), res.value, env.hasWindow)
      else if err.Some? then RunState(false, st.skip, err, effects)
      else if res.None? then RunState(true, st.skip, err, effects)
      else Apply(item.lbl, RunState(true, st.skip, err, effects), res.value, env.hasWindow)
  }

  /** The loop state after the first `n` actions. */
  function RunTo(item: MenuItem, env: Env, n: nat): RunState
    requires n <= |item.actions|
  {
    if n == 0 then Start else StepAt(item, env, n - 1, RunTo(item, env, n - 1))
  }

  /** Everything `nm_menu_item_do` does: the effects of its actions, then a
    * dialog with the error of the last action that ran, if it failed. */
  function ItemEffects(item: MenuItem, env: Env): seq<Effect> {
    var st := RunTo(item, env, |item.actions|);
    st.effects + (if st.err.Some? then [Dialog(item.lbl, st.err.value)] else [])
  }

  /** `nm_menu_item_do`: walks the actions of `item`, skipping, gating and
    * calling them, and handling their results. */
  method ItemDo(item: MenuItem, env: Env) returns (effects: seq<Effect>)
    ensures effects == ItemEffects(item, env)
  {
    var err: Option<string> := None;
    var success := true;
    var skip := 0;
    effects := [];
    var i := 0;
    while i < |item.actions|
      invariant 0 <= i <= |item.actions|
      invariant RunTo(item, env, i) == RunState(success, skip, err, effects)
    {
      var cur := item.actions[i];
      i := i + 1;
      if skip != 0 {
        if skip > 0 {
          skip := skip - 1;
        }
        continue;
      } else if !((success && cur.onSuccess) || (!success && cur.onFailure)) {
        continue;
      }
      var res: Option<ActionResult> := None;
      if env.transform.None? {
        effects := effects + [Invoke(i - 1, cur.arg)];
        var reply := env.perform(i - 1, cur.arg);
        res, err := reply.res, reply.err;
      } else {
        var arg := env.transform.value(cur.arg);
        if arg.Ok? {
          effects := effects + [Invoke(i - 1, arg.value)];
          var reply := env.perform(i - 1, arg.value);
          res, err := reply.res, reply.err;
        } else {
          err := arg.error;
        }
      }
      if err.None? && res.Some? && res.value.Skip? {
      } else {
        success := err.None?;
        if !success {
          continue;
        } else if res.None? {
          continue;
        }
      }
      match res.value {
        case Silent =>
        case Msg(m) =>
          effects := effects + [Dialog(item.lbl, m)];
        case Toast(m) =>
          if env.hasWindow {
            effects := effects + [ShowToast(m)];
          }
        case Skip(k) =>
          skip := k;
      }
    }
    if err.Some? {
      effects := effects + [Dialog(item.lbl, err.value)];
    }
  }

  /** Action `i` got past the skip counter and its condition flags. */
  predicate Ran(item: MenuItem, env: Env, i: nat)
    requires i < |item.actions|
  {
    var st := RunTo(item, env, i);
    st.skip == 0 && Gate(st.success, item.actions[i])
  }

  /** A skip of -1 skips every remaining action: from then on nothing runs
    * and the state no longer changes. */
  lemma {:induction false} NegativeSkipSkipsRest(item: MenuItem, env: Env, n: nat, m: nat)
    requires n <= m <= |item.actions| && RunTo(item, env, n).skip < 0
    ensures RunTo(item, env, m) == RunTo(item, env, n)
    decreases m - n
  {
    if n < m {
      NegativeSkipSkipsRest(item, env, n, m - 1);
    }
  }

  /** A skip of k > 0 passes over exactly the next k actions, which change
    * nothing but the counter. */
  lemma {:induction false} PositiveSkipSkips(item: MenuItem, env: Env, n: nat, k: nat)
    requires n + k <= |item.actions| && RunTo(item, env, n).skip >= k
    ensures RunTo(item, env, n + k) == RunTo(item, env, n).(skip := RunTo(item, env, n).skip - k)
    decreases k
  {
    if k > 0 {
      PositiveSkipSkips(item, env, n, k - 1);
    }
  }

  /** An action is called exactly when it ran and there is no transform or the
    * transform gave it an argument; a NULL from the transform makes the
    * transform's error the action's error. */
  lemma CalledIffRan(item: MenuItem, env: Env, i: nat)
    requires i < |item.actions|
    ensures var before, after := RunTo(item, env, i), RunTo(item, env, i + 1);
      var a := item.actions[i];
      |before.effects| <= |after.effects| && after.effects[..|before.effects|] == before.effects &&
      ((|after.effects| > |before.effects| && after.effects[|before.effects|].Invoke?) <==>
        Ran(item, env, i) && (env.transform.None? || env.transform.value(a.arg).Ok?))
    ensures Ran(item, env, i) && env.transform.Some? && env.transform.value(item.actions[i].arg).Err? ==>
      RunTo(item, env, i + 1).err == env.transform.value(item.actions[i].arg).error
  {
    var before, after := RunTo(item, env, i), RunTo(item, env, i + 1);
    assert after.effects[..|before.effects|] == before.effects by {
      if Ran(item, env, i) {
        var c := CallAction(env, i, item.actions[i]);
        var mid := before.effects + (if c.invoked.Some? then [Invoke(i, c.invoked.value)] else []);
        assert mid[..|before.effects|] == before.effects;
        assert after.effects[..|mid|] == mid;
      }
    }
  }

  /** After an action runs, `success` says whether it reported no error,
    * except that an error-free skip result leaves it as it was and sets the
    * skip counter. */
  lemma SuccessAfterRun(item: MenuItem, env: Env, i: nat)
    requires i < |item.actions| && Ran(item, env, i)
    ensures var r := CallAction(env, i, item.actions[i]).reply;
      var after := RunTo(item, env, i + 1);
      if r.err.None? && r.res.Some? && r.res.value.Skip? then
        after.success == RunTo(item, env, i).success && after.skip == r.res.value.count
      else after.success == r.err.None?
  {
  }

  /** The position of the last of the first `n` actions that ran. */
  function LastRan(item: MenuItem, env: Env, n: nat): (r: Option<nat>)
    requires n <= |item.actions|
    ensures r.Some? ==> r.value < n && Ran(item, env, r.value)
  {
    if n == 0 then None else if Ran(item, env, n - 1) then Some(n - 1) else LastRan(item, env, n - 1)
  }

  /** The error `nm_menu_item_do` holds is the one the last action that ran
    * left, and none when no action ran. */
  lemma {:induction false} ErrorOfLastRan(item: MenuItem, env: Env, n: nat)
    requires n <= |item.actions|
    ensures RunTo(item, env, n).err ==
      match LastRan(item, env, n)
      case None => None
      case Some(i) => CallAction(env, i, item.actions[i]).reply.err
  {
    if n > 0 {
      ErrorOfLastRan(item, env, n - 1);
    }
  }

  /** The final error dialog is shown exactly when the last action that ran
    * reported an error, and shows that error. */
  lemma ErrorDialogIff(item: MenuItem, env: Env)
    ensures var last := LastRan(item, env, |item.actions|);
      var e := if last.Some? then CallAction(env, last.value, item.actions[last.value]).reply.err else None;
      ItemEffects(item, env) == RunTo(item, env, |item.actions|).effects +
        (if e.Some? then [Dialog(item.lbl, e.value)] else [])
  {
    ErrorOfLastRan(item, env, |item.actions|);
  }

  // ---------------------------------------------------------------------
  // The selection-menu item slot

  /** The static of `_nm_menu_hook4_item`: the item whose button was tapped,
    * waiting for the search hook. */
  class ItemSlot {
    var its: Option<MenuItem>

    constructor ()
      ensures its == None
    {
      its := None;
    }

    /** `_nm_menu_hook4_item`: an item is stored and returned; no item takes
      * the stored one, leaving the slot empty. */
    method Hook(it: Option<MenuItem>) returns (r: Option<MenuItem>)
      modifies this
      ensures it.Some? ==> r == it && its == it
      ensures it.None? ==> r == old(its) && its == None
    {
      if it.Some? {
        its := it;
        return its;
      }
      if its.None? {
        return None;
      }
      var tmp := its;
      its := None;
      return tmp;
    }
  }

  /** A tapped item is handed to the search hook once: the first take gets
    * it, a second take finds the slot empty. */
  method SlotOneShot(it: MenuItem) returns (stored: Option<MenuItem>, first: Option<MenuItem>, second: Option<MenuItem>)
    ensures stored == Some(it) && first == Some(it) && second == None
  {
    var slot := new ItemSlot();
    stored := slot.Hook(Some(it));
    first := slot.Hook(None);
    second := slot.Hook(None);
  }

  /** Taking from a slot nothing was stored in gives nothing. */
  method SlotEmpty() returns (taken: Option<MenuItem>)
    ensures taken == None
  {
    var slot := new ItemSlot();
    taken := slot.Hook(None);
  }

  // ---------------------------------------------------------------------
  // Main menu config keys

  /** The size of the key buffer: room for "menu_main_15505_9_icon_active"
    * and its NUL. */
  const KeyBufSize: nat := |"menu_main_15505_9_icon_active"| + 1

  function MainMenuKey(index: int, option: string): string {
    "menu_main_15505_" + IntToDecimal(index) + "_" + option
  }

  /** `nm_main_menu_config`: the experimental config value under the key for
    * `index` and `option`, or nothing when the key does not fit the buffer. */
  function MainMenuConfig(index: int, option: string, config: string -> Option<string>): Option<string> {
    var key := MainMenuKey(index, option);
    if |key| >= KeyBufSize then None else config(key)
  }

  /** The buffer holds the key of any single-digit index with an option of up
    * to 11 characters, such as "icon_active". */
  lemma MainMenuKeyFits(index: int, option: string, config: string -> Option<string>)
    requires 0 <= index <= 9 && |option| <= 11
    ensures MainMenuConfig(index, option, config) == config(MainMenuKey(index, option))
  {
    assert |IntToDecimal(index)| == 1;
    assert |MainMenuKey(index, option)| == 18 + |option|;
  }

  /** An index of two characters or more (10 and up, or negative) leaves no
    * room for an option of 11 characters such as "icon_active", and no index
    * leaves room for 12: the lookup is skipped. */
  lemma MainMenuKeyTooLong(index: int, option: string, config: string -> Option<string>)
    requires ((index >= 10 || index < 0) && |option| >= 11) || |option| >= 12
    ensures MainMenuConfig(index, option, config) == None
  {
    if index >= 10 {
      assert NatToDecimal(index) == NatToDecimal(index / 10) + [('0' as int + index % 10) as char];
    }
    assert |MainMenuKey(index, option)| == 17 + |IntToDecimal(index)| + |option|;
  }

  // ---------------------------------------------------------------------
  // Injecting items into a menu

  datatype SepStyle = PlainSep | LightSep | BoldSep

  /** What a menu entry shows: one of the menu's own actions, the action of
    * item `index` of the config, or a separator. */
  datatype Widget = Native(id: nat) | ItemEntry(index: nat, lbl: string) | Separator(style: SepStyle)

  /** A menu entry; `tagged` is the "nm_action" property set on everything injected. */
  datatype Entry = Entry(widget: Widget, tagged: bool)

  /** The entries a menu had before anything was injected. */
  function Untagged(es: seq<Entry>): (r: seq<Entry>)
    ensures |r| <= |es|
  {
    if |es| == 0 then [] else Untagged(es[..|es| - 1]) + (if es[|es| - 1].tagged then [] else [es[|es| - 1]])
  }

  predicate AnyTagged(es: seq<Entry>) {
    exists i :: 0 <= i < |es| && es[i].tagged
  }

  lemma {:induction false} UntaggedConcat(a: seq<Entry>, b: seq<Entry>)
    ensures Untagged(a + b) == Untagged(a) + Untagged(b)
    decreases |b|
  {
    if |b| == 0 {
      assert a + b == a;
    } else {
      assert (a + b)[..|a + b| - 1] == a + b[..|b| - 1];
      UntaggedConcat(a, b[..|b| - 1]);
    }
  }

  lemma {:induction false} UntaggedNone(es: seq<Entry>)
    requires !AnyTagged(es)
    ensures Untagged(es) == es
  {
    if |es| > 0 {
      UntaggedNone(es[..|es| - 1]);
    }
  }

  /** Filtering one more entry. */
  lemma UntaggedStep(es: seq<Entry>, i: nat)
    requires i < |es|
    ensures Untagged(es[..i + 1]) == Untagged(es[..i]) + (if es[i].tagged then [] else [es[i]])
  {
    assert es[..i + 1][..i] == es[..i];
  }

  /** Moving the next entry of `es` onto the end of `kept`. */
  lemma AppendShift(kept: seq<Entry>, es: seq<Entry>, i: nat)
    requires i < |es|
    ensures kept + es[i..] == (kept + [es[i]]) + es[i + 1..]
  {
    assert es[i..] == [es[i]] + es[i + 1..];
  }

  /** Cutting a joined menu where its two parts meet gives them back. */
  lemma SplitAtJoin(a: seq<Entry>, b: seq<Entry>)
    ensures (a + b)[..|a|] == a && (a + b)[|a|..] == b
  {
  }

  /** Entries inserted after a block extend the block. */
  lemma Regroup(a: seq<Entry>, b: seq<Entry>, c: seq<Entry>, d: seq<Entry>)
    ensures (a + b) + c + d == a + (b + c) + d
  {
  }

  /** One more entry that is not tagged keeps a prefix free of tagged ones. */
  lemma UntouchedStep(es: seq<Entry>, i: nat)
    requires i < |es| && !es[i].tagged && !AnyTagged(es[..i])
    ensures !AnyTagged(es[..i + 1])
  {
    var t := es[..i + 1];
    assert forall j :: 0 <= j < i ==> t[j] == es[..i][j];
  }

  /** The first tagged entry: before it nothing is filtered out, and the
    * whole menu has a tagged entry. */
  lemma FirstTagged(es: seq<Entry>, i: nat)
    requires i < |es| && es[i].tagged && !AnyTagged(es[..i])
    ensures Untagged(es[..i]) + es[i..] == es
    ensures AnyTagged(es)
  {
    UntaggedNone(es[..i]);
    assert es[..i] + es[i..] == es;
  }

  lemma {:induction false} UntaggedClean(es: seq<Entry>)
    ensures !AnyTagged(Untagged(es))
  {
    if |es| > 0 {
      UntaggedClean(es[..|es| - 1]);
    }
  }

  /** The separator after item `i`: a bold or light one in the main menu when
    * those exist (bold after the last item of the config), a plain one
    * elsewhere. */
  function SepFor(loc: Location, i: nat, n: nat, customSeps: bool): SepStyle {
    if loc == Main && customSeps then (if i == n - 1 then BoldSep else LightSep) else PlainSep
  }

  /** The tagged entries for the first `n` items placed at `loc`: each
    * matching item followed by its separator, in config order. */
  function Block(loc: Location, items: seq<MenuItem>, customSeps: bool, n: nat): (b: seq<Entry>)
    requires n <= |items|
    ensures forall k :: 0 <= k < |b| ==> b[k].tagged
  {
    if n == 0 then []
    else
      Block(loc, items, customSeps, n - 1) +
        (if items[n - 1].loc == loc
         then [Entry(ItemEntry(n - 1, items[n - 1].lbl), true), Entry(Separator(SepFor(loc, n - 1, |items|, customSeps)), true)]
         else [])
  }

  /** Where new entries go: before the entry at `at`, or at the end when
    * there is none. */
  function InsertionPoint(at: nat, kept: seq<Entry>): (p: nat)
    ensures p <= |kept|
  {
    if at < |kept| then at else |kept|
  }

  /** `_nm_menu_inject` on the menu's entries and revision: nothing changes
    * when the menu already holds injected entries of the current revision;
    * otherwise the injected entries are removed and, when the config has
    * items, those placed at `loc` are inserted and the revision recorded. */
  function InjectSpec(actions: seq<Entry>, rev: int, loc: Location, at: nat, revN: int,
                      items: Option<seq<MenuItem>>, customSeps: bool): (seq<Entry>, int)
  {
    if AnyTagged(actions) && rev == revN then (actions, rev)
    else
      var kept := Untagged(actions);
      if items.None? then (kept, rev)
      else
        var p := InsertionPoint(at, kept);
        (kept[..p] + Block(loc, items.value, customSeps, |items.value|) + kept[p..], revN)
  }

  /** The item indices of the injected item entries, in menu order. */
  function InjectedItems(es: seq<Entry>): seq<nat> {
    if |es| == 0 then []
    else
      var last := es[|es| - 1];
      InjectedItems(es[..|es| - 1]) + (if last.tagged && last.widget.ItemEntry? then [last.widget.index] else [])
  }

  /** The indices of the items placed at `loc` among the first `n`. */
  function Matching(loc: Location, items: seq<MenuItem>, n: nat): seq<nat>
    requires n <= |items|
  {
    if n == 0 then [] else Matching(loc, items, n - 1) + (if items[n - 1].loc == loc then [n - 1] else [])
  }

  lemma {:induction false} InjectedItemsConcat(a: seq<Entry>, b: seq<Entry>)
    ensures InjectedItems(a + b) == InjectedItems(a) + InjectedItems(b)
    decreases |b|
  {
    if |b| == 0 {
      assert a + b == a;
    } else {
      assert (a + b)[..|a + b| - 1] == a + b[..|b| - 1];
      InjectedItemsConcat(a, b[..|b| - 1]);
    }
  }

  lemma {:induction false} InjectedItemsClean(es: seq<Entry>)
    requires !AnyTagged(es)
    ensures InjectedItems(es) == []
  {
    if |es| > 0 {
      InjectedItemsClean(es[..|es| - 1]);
    }
  }

  lemma {:induction false} BlockItems(loc: Location, items: seq<MenuItem>, customSeps: bool, n: nat)
    requires n <= |items|
    ensures InjectedItems(Block(loc, items, customSeps, n)) == Matching(loc, items, n)
  {
    if n > 0 {
      BlockItems(loc, items, customSeps, n - 1);
      var tail := if items[n - 1].loc == loc
        then [Entry(ItemEntry(n - 1, items[n - 1].lbl), true), Entry(Separator(SepFor(loc, n - 1, |items|, customSeps)), true)]
        else [];
      InjectedItemsConcat(Block(loc, items, customSeps, n - 1), tail);
      if items[n - 1].loc == loc {
        assert tail[..1] == [tail[0]];
        assert InjectedItems(tail[..1]) == [n - 1];
      }
    }
  }

  lemma {:induction false} BlockUntagged(loc: Location, items: seq<MenuItem>, customSeps: bool, n: nat)
    requires n <= |items|
    ensures Untagged(Block(loc, items, customSeps, n)) == []
    decreases n
  {
    var b := Block(loc, items, customSeps, n);
    BlockUntaggedPrefix(b, |b|);
    assert b[..|b|] == b;
  }

  lemma {:induction false} BlockUntaggedPrefix(b: seq<Entry>, k: nat)
    requires k <= |b| && forall j :: 0 <= j < |b| ==> b[j].tagged
    ensures Untagged(b[..k]) == []
  {
    if k > 0 {
      assert b[..k][..k - 1] == b[..k - 1];
      BlockUntaggedPrefix(b, k - 1);
    }
  }

  /** Cutting a menu without injected entries in two leaves none in either part. */
  lemma SplitClean(kept: seq<Entry>, p: nat)
    requires p <= |kept| && !AnyTagged(kept)
    ensures !AnyTagged(kept[..p]) && !AnyTagged(kept[p..])
    ensures kept[..p] + kept[p..] == kept
  {
    assert forall i :: 0 <= i < p ==> kept[..p][i] == kept[i];
    assert forall i :: 0 <= i < |kept| - p ==> kept[p..][i] == kept[p + i];
  }

  lemma UntaggedAround(a: seq<Entry>, b: seq<Entry>, c: seq<Entry>)
    requires !AnyTagged(a) && !AnyTagged(c) && Untagged(b) == []
    ensures Untagged(a + b + c) == a + c
  {
    UntaggedNone(a);
    UntaggedNone(c);
    UntaggedConcat(a + b, c);
    UntaggedConcat(a, b);
    assert a + [] == a;
  }

  /** Injection never touches the menu's own entries: they stay, in order. */
  lemma InjectKeepsOwnEntries(actions: seq<Entry>, rev: int, loc: Location, at: nat, revN: int,
                              items: Option<seq<MenuItem>>, customSeps: bool)
    ensures Untagged(InjectSpec(actions, rev, loc, at, revN, items, customSeps).0) == Untagged(actions)
  {
    if !(AnyTagged(actions) && rev == revN) && items.Some? {
      var kept := Untagged(actions);
      var p := InsertionPoint(at, kept);
      var b := Block(loc, items.value, customSeps, |items.value|);
      UntaggedClean(actions);
      SplitClean(kept, p);
      BlockUntagged(loc, items.value, customSeps, |items.value|);
      UntaggedAround(kept[..p], b, kept[p..]);
      UntaggedNone(kept);
    } else if !(AnyTagged(actions) && rev == revN) {
      UntaggedClean(actions);
      UntaggedNone(Untagged(actions));
    }
  }

  /** After an injection with a config, the injected item entries are exactly
    * the items placed at `loc`, in config order. */
  lemma InjectAddsMatching(actions: seq<Entry>, rev: int, loc: Location, at: nat, revN: int,
                           items: seq<MenuItem>, customSeps: bool)
    requires !(AnyTagged(actions) && rev == revN)
    ensures InjectedItems(InjectSpec(actions, rev, loc, at, revN, Some(items), customSeps).0) == Matching(loc, items, |items|)
    ensures InjectSpec(actions, rev, loc, at, revN, Some(items), customSeps).1 == revN
  {
    var kept := Untagged(actions);
    var p := InsertionPoint(at, kept);
    var b := Block(loc, items, customSeps, |items|);
    UntaggedClean(actions);
    SplitClean(kept, p);
    InjectedItemsConcat(kept[..p] + b, kept[p..]);
    InjectedItemsConcat(kept[..p], b);
    InjectedItemsClean(kept[..p]);
    InjectedItemsClean(kept[p..]);
    BlockItems(loc, items, customSeps, |items|);
  }

  /** Injecting twice with the same revision and config is the same as
    * injecting once. */
  lemma InjectIdempotent(actions: seq<Entry>, rev: int, loc: Location, at: nat, revN: int,
                         items: Option<seq<MenuItem>>, customSeps: bool)
    ensures var (once, r1) := InjectSpec(actions, rev, loc, at, revN, items, customSeps);
      InjectSpec(once, r1, loc, at, revN, items, customSeps) == (once, r1)
  {
    var (once, r1) := InjectSpec(actions, rev, loc, at, revN, items, customSeps);
    if AnyTagged(actions) && rev == revN {
    } else {
      var kept := Untagged(actions);
      UntaggedClean(actions);
      UntaggedNone(kept);
      if items.None? {
        assert once == kept;
      } else {
        var p := InsertionPoint(at, kept);
        var b := Block(loc, items.value, customSeps, |items.value|);
        assert once == kept[..p] + b + kept[p..];
        if |b| > 0 {
          assert once[p].tagged;
        } else {
          assert once == kept;
        }
      }
    }
  }

  /** A Qt menu: its entries and its "nm_config_rev" property (0 when unset). */
  class Menu {
    var actions: seq<Entry>
    var rev: int

    constructor (entries: seq<Entry>)
      ensures actions == entries && rev == 0
    {
      actions := entries;
      rev := 0;
    }

    /** The first half of `_nm_menu_inject`: when an injected entry is found
      * and the menu's revision is the config's, the menu is up to date and
      * left alone; otherwise every injected entry is removed. */
    method RemoveInjected(revN: int) returns (upToDate: bool)
      modifies this
      ensures rev == old(rev)
      ensures upToDate <==> AnyTagged(old(actions)) && old(rev) == revN
      ensures actions == if upToDate then old(actions) else Untagged(old(actions))
    {
      var all := actions;
      var kept: seq<Entry> := [];
      for i := 0 to |all|
        invariant actions == kept + all[i..]
        invariant kept == Untagged(all[..i])
        invariant rev == old(rev)
        invariant rev == revN ==> !AnyTagged(all[..i])
      {
        UntaggedStep(all, i);
        if all[i].tagged {
          if rev == revN {
            FirstTagged(all, i);
            return true;
          }
          actions := kept + all[i + 1..];
        } else {
          AppendShift(kept, all, i);
          kept := kept + [all[i]];
          if rev == revN {
            UntouchedStep(all, i);
          }
        }
      }
      assert all[..|all|] == all;
      upToDate := false;
    }

    /** `createAction_before` for item `i`: its entry and then its separator,
      * both tagged, go in at position `p`. */
    method CreateActionBefore(p: nat, i: nat, it: MenuItem, style: SepStyle)
      requires p <= |actions|
      modifies this
      ensures rev == old(rev)
      ensures actions == old(actions[..p]) + [Entry(ItemEntry(i, it.lbl), true), Entry(Separator(style), true)] + old(actions[p..])
    {
      actions := actions[..p] + [Entry(ItemEntry(i, it.lbl), true), Entry(Separator(style), true)] + actions[p..];
    }

    /** The loop of `_nm_menu_inject` over the config's items: each item
      * placed at `loc` goes in, with its separator, before the entry that
      * was at `before`. */
    method InsertItems(before: nat, loc: Location, list: seq<MenuItem>, customSeps: bool)
      requires before <= |actions|
      modifies this
      ensures rev == old(rev)
      ensures actions == old(actions[..before]) + Block(loc, list, customSeps, |list|) + old(actions[before..])
    {
      var kept := actions;
      var p := before;
      for i := 0 to |list|
        invariant actions == kept[..before] + Block(loc, list, customSeps, i) + kept[before..]
        invariant p == before + |Block(loc, list, customSeps, i)|
        invariant rev == old(rev)
      {
        if list[i].loc == loc {
          SplitAtJoin(kept[..before] + Block(loc, list, customSeps, i), kept[before..]);
          CreateActionBefore(p, i, list[i], SepFor(loc, i, |list|, customSeps));
          Regroup(kept[..before], Block(loc, list, customSeps, i),
                  [Entry(ItemEntry(i, list[i].lbl), true), Entry(Separator(SepFor(loc, i, |list|, customSeps)), true)],
                  kept[before..]);
          p := p + 2;
        }
      }
    }

    /** `_nm_menu_inject`: unless the menu is up to date, removes what was
      * injected before and, when the config has items, inserts each item
      * placed at `loc` with its separator before the entry at `at`, then
      * records the config's revision. */
    method Inject(loc: Location, at: nat, revN: int, items: Option<seq<MenuItem>>, customSeps: bool)
      modifies this
      ensures (actions, rev) == InjectSpec(old(actions), old(rev), loc, at, revN, items, customSeps)
    {
      var upToDate := RemoveInjected(revN);
      if upToDate {
        return;
      }
      var before := if at < |actions| then at else |actions|;
      if items.None? {
        return;
      }
      InsertItems(before, loc, items.value, customSeps);
      rev := revN;
    }
  }
}
