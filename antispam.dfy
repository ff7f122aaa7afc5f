/** The anti-spam gate in front of callback handlers. Each sender/chat pair
    has a state: the time of its last admitted press and, when locking is
    enabled, whether a handler for it is still running. A press is rejected
    while the pair is locked or when it comes sooner than the cooldown after
    the last one. The gate works in two steps: entering at time `now`, and
    finishing (the handler returned or threw) at a later time. Times are
    milliseconds supplied by the caller. */
module AntiSpam {
  import opened Wrappers
  import Text

  /** `LockerState`. */
  datatype LockerState = LockerState(lastAt: int, locked: bool)

  /** The state of a pair never seen before. */
  const Unseen: LockerState := LockerState(0, false)

  /** `AntiSpamOptions`: every option may be left out. */
  datatype Options = Options(cooldownMs: Option<int>, enableLock: Option<bool>, whitelistPayloads: Option<seq<string>>)

  /** The settings the gate derives from its options. */
  datatype Settings = Settings(cooldown: int, enableLock: bool, whitelist: set<string>)

  /** `Math.max(0, cooldownMs ?? 800)`. */
  function EffectiveCooldown(cooldownMs: Option<int>): (r: int)
    ensures r >= 0
    ensures cooldownMs.None? ==> r == 800
    ensures cooldownMs.Some? && cooldownMs.value >= 0 ==> r == cooldownMs.value
    ensures cooldownMs.Some? && cooldownMs.value < 0 ==> r == 0
  {
    var c := cooldownMs.GetOr(800);
    if c < 0 then 0 else c
  }

  function SettingsOf(opts: Options): (s: Settings)
    ensures s.cooldown >= 0
    ensures s.enableLock <==> opts.enableLock == Some(true)
    ensures forall p :: p in s.whitelist <==> opts.whitelistPayloads.Some? && p in opts.whitelistPayloads.value
  {
    var list := opts.whitelistPayloads.GetOr([]);
    Settings(EffectiveCooldown(opts.cooldownMs), opts.enableLock.GetOr(false), set p | p in list)
  }

  /** The facts about an update the gate looks at. The chat id may come from
      the chat, from the message the pressed keyboard belongs to, or from the
      update's message, in that order. */
  datatype Update = Update(
    isCallback: bool,
    data: Option<string>,
    fromId: Option<int>,
    chatId: Option<int>,
    callbackMessageChatId: Option<int>,
    messageChatId: Option<int>)

  /** The `??` chain: the first chat id that is present (0 counts as present). */
  function ChatIdOf(u: Update): (r: Option<int>)
    ensures u.chatId.Some? ==> r == u.chatId
    ensures u.chatId.None? && u.callbackMessageChatId.Some? ==> r == u.callbackMessageChatId
    ensures u.chatId.None? && u.callbackMessageChatId.None? ==> r == u.messageChatId
  {
    if u.chatId.Some? then u.chatId
    else if u.callbackMessageChatId.Some? then u.callbackMessageChatId
    else u.messageChatId
  }

  /** The state key `${fromId}:${chatId}`. */
  function KeyOf(fromId: int, chatId: int): string {
    Text.IntToString(fromId) + ":" + Text.IntToString(chatId)
  }

  /** Distinct pairs have distinct keys, so state is kept per pair. */
  lemma KeyInjective(a: int, b: int, c: int, d: int)
    requires KeyOf(a, b) == KeyOf(c, d)
    ensures a == c && b == d
  {
    var sa, sc := Text.IntToString(a), Text.IntToString(c);
    var k := KeyOf(a, b);
    assert k[|sa|] == ':';
    assert k[|sc|] == ':';
    if |sa| < |sc| {
      assert false;
    } else if |sc| < |sa| {
      assert false;
    }
    assert sa == k[..|sa|] == sc;
    Text.IntToStringInjective(a, c);
    assert Text.IntToString(b) == k[|sa| + 1..] == Text.IntToString(d);
    Text.IntToStringInjective(b, d);
  }

  /** What the gate decides about one press. */
  datatype Verdict =
    | PassThrough          // handed on without any bookkeeping
    | Admitted(key: string) // handed on; the pair is stamped (and locked)
    | RejectedLocked       // a handler for the pair is still running
    | RejectedTooFast      // sooner than the cooldown after the last press

  /** The pair an update is tracked under, or nothing when the gate lets it
      through untouched: not a callback, no (or empty) data, a whitelisted
      payload, or a missing or zero sender or chat id. */
  function TrackedKey(cfg: Settings, u: Update): (r: Option<string>)
    ensures r.Some? <==>
      && u.isCallback && u.data.Some? && u.data.value != "" && u.data.value !in cfg.whitelist
      && u.fromId.Some? && u.fromId.value != 0
      && ChatIdOf(u).Some? && ChatIdOf(u).value != 0
    ensures r.Some? ==> r.value == KeyOf(u.fromId.value, ChatIdOf(u).value)
  {
    if !u.isCallback || u.data.None? || u.data.value == "" then None
    else if u.data.value in cfg.whitelist then None
    else
      var chat := ChatIdOf(u);
      if u.fromId.None? || u.fromId.value == 0 || chat.None? || chat.value == 0 then None
      else Some(KeyOf(u.fromId.value, chat.value))
  }

  /** The state of a pair, `Unseen` when absent. */
  function StateOf(store: map<string, LockerState>, key: string): LockerState {
    if key in store then store[key] else Unseen
  }

  /** The entering step: the verdict and the store after it. */
  function Enter(cfg: Settings, store: map<string, LockerState>, u: Update, now: int): (r: (Verdict, map<string, LockerState>))
  {
    match TrackedKey(cfg, u)
    case None => (PassThrough, store)
    case Some(key) =>
      var st := StateOf(store, key);
      if cfg.enableLock && st.locked then (RejectedLocked, store)
      else if now - st.lastAt < cfg.cooldown then (RejectedTooFast, store)
      else (Admitted(key), store[key := LockerState(now, if cfg.enableLock then true else st.locked)])
  }

  /** The finishing step for an admitted pair at completion time `t`. */
  function Settle(cfg: Settings, store: map<string, LockerState>, key: string, t: int): map<string, LockerState>
    requires key in store
  {
    store[key := LockerState(t, if cfg.enableLock then false else store[key].locked)]
  }

  /** An untracked update never reads or writes the store; in particular a
      whitelisted payload always passes. */
  lemma UntrackedPasses(cfg: Settings, store: map<string, LockerState>, u: Update, now: int)
    requires u.data.Some? && u.data.value in cfg.whitelist
    ensures Enter(cfg, store, u, now) == (PassThrough, store)
  {
  }

  /** Rejections leave the store as it was, and so does passing through. */
  lemma RejectionKeepsStore(cfg: Settings, store: map<string, LockerState>, u: Update, now: int)
    ensures var (v, store') := Enter(cfg, store, u, now);
      !v.Admitted? ==> store' == store
  {
  }

  /** The verdict for a tracked press: locked first, then too fast, else
      admitted with the pair stamped `now` and locked when locking is on. */
  lemma EnterVerdict(cfg: Settings, store: map<string, LockerState>, u: Update, now: int)
    requires TrackedKey(cfg, u).Some?
    ensures var key := TrackedKey(cfg, u).value;
      var st := StateOf(store, key);
      var (v, store') := Enter(cfg, store, u, now);
      && (cfg.enableLock && st.locked ==> v == RejectedLocked)
      && (!(cfg.enableLock && st.locked) && now - st.lastAt < cfg.cooldown ==> v == RejectedTooFast)
      && (!(cfg.enableLock && st.locked) && now - st.lastAt >= cfg.cooldown ==>
            v == Admitted(key) && store'[key].lastAt == now && (cfg.enableLock ==> store'[key].locked))
  {
  }

  /** Only the entry of the press's own pair can change. */
  lemma EnterIsPerPair(cfg: Settings, store: map<string, LockerState>, u: Update, now: int, other: string)
    requires TrackedKey(cfg, u) != Some(other)
    ensures StateOf(Enter(cfg, store, u, now).1, other) == StateOf(store, other)
  {
  }

  /** With locking enabled, once a press is admitted every further press on the
      same pair is rejected, at any time, until its handler finishes; after
      finishing the pair is unlocked and stamped with the completion time. */
  lemma LockHoldsUntilFinish(cfg: Settings, store: map<string, LockerState>, u: Update, now: int, u2: Update, later: int, t: int)
    requires cfg.enableLock
    requires Enter(cfg, store, u, now).0.Admitted?
    requires TrackedKey(cfg, u2) == TrackedKey(cfg, u)
    ensures var s1 := Enter(cfg, store, u, now).1;
      var key := Enter(cfg, store, u, now).0.key;
      && Enter(cfg, s1, u2, later) == (RejectedLocked, s1)
      && key in s1
      && Settle(cfg, s1, key, t)[key] == LockerState(t, false)
  {
  }

  /** Without locking no pair is ever locked: both steps keep that. */
  predicate NeverLocked(store: map<string, LockerState>) {
    forall k :: k in store ==> !store[k].locked
  }

  lemma UnlockedStaysUnlocked(cfg: Settings, store: map<string, LockerState>, u: Update, now: int, key: string, t: int)
    requires !cfg.enableLock && NeverLocked(store)
    ensures NeverLocked(Enter(cfg, store, u, now).1)
    ensures key in store ==> NeverLocked(Settle(cfg, store, key, t))
  {
  }

  /** Without locking, a press at least a cooldown after the last one on its
      pair is always admitted. */
  lemma CooldownElapsedAdmits(cfg: Settings, store: map<string, LockerState>, u: Update, now: int)
    requires !cfg.enableLock
    requires TrackedKey(cfg, u).Some?
    requires now - StateOf(store, TrackedKey(cfg, u).value).lastAt >= cfg.cooldown
    ensures Enter(cfg, store, u, now).0 == Admitted(TrackedKey(cfg, u).value)
  {
  }

  /** `callbacksAntiSpam(opts)`: the gate with its private store. */
  class Gate {
    const cfg: Settings
    /** `store`, keyed by `${fromId}:${chatId}`. */
    var store: map<string, LockerState>

    constructor(opts: Options)
      ensures cfg == SettingsOf(opts) && cfg.cooldown >= 0
      ensures store == map[]
    {
      cfg := SettingsOf(opts);
      store := map[];
    }

    /** The part of the middleware before `next()`. */
    method TryEnter(u: Update, now: int) returns (v: Verdict)
      modifies this
      ensures (v, store) == Enter(cfg, old(store), u, now)
      ensures !v.Admitted? ==> store == old(store)
    {
      var tracked := TrackedKey(cfg, u);
      if tracked.None? {
        return PassThrough;
      }
      var key := tracked.value;
      var st := if key in store then store[key] else Unseen;
      if cfg.enableLock && st.locked {
        return RejectedLocked;
      }
      var delta := now - st.lastAt;
      if delta < cfg.cooldown {
        return RejectedTooFast;
      }
      st := st.(lastAt := now);
      if cfg.enableLock {
        st := st.(locked := true);
      }
      store := store[key := st];
      v := Admitted(key);
    }

    /** The `finally` block after `next()` settles, at time `t`. */
    method Finish(key: string, t: int)
      requires key in store
      modifies this
      ensures store == Settle(cfg, old(store), key, t)
      ensures store[key].lastAt == t && (cfg.enableLock ==> !store[key].locked)
    {
      var st := store[key];
      if cfg.enableLock {
        st := st.(locked := false);
      }
      st := st.(lastAt := t);
      store := store[key := st];
    }
  }
}
