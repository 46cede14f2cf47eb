/**
 * AnnouncerCommandExecutor: `/announce <args>` routed through the chain of
 * verbs to its handler, the handler's decision carried out on the plugin,
 * and the replies sent back to the sender.
 */
module Executor {
  import opened Wrappers
  import opened JavaLang
  import opened ChatColors
  import opened Config
  import opened Delivery
  import opened Rotation
  import opened Plugin
  import opened Commands

  /** How onCommand ends: it returns true, or an exception escapes it. */
  datatype Completion =
    | Returned
    | Threw(failure: Failure)

  datatype Failure =
    | ArithmeticFailure          // the random pick on an empty store
    | IndexFailure               // List.get below index 0: a negative rotation pick or a wrapped list page
    | UnknownColor(name: string) // ChatColor.valueOf during reloadConfiguration

  /** The configured fields once `action` has been carried out on fields `s`. */
  function Next(gen: Generation, palette: seq<ChatColor>, s: Settings, action: Action, file: Document): Settings {
    match action
    case AddMessage(m) => s.(messages := s.messages + [m])
    case RemoveMessage(i) => if 1 <= i <= |s.messages| then s.(messages := RemoveAt(s.messages, i)) else s
    case SetInterval(n) => s.(interval := n)
    case SetRandomMode(b) => s.(random := b)
    case SetEnabled(b) => s.(enabled := b)
    case ReloadConfig => Load(gen, palette, file, s).settings
    case _ => s
  }

  /** The actions whose plugin method ends with saveConfiguration. */
  predicate Saves(action: Action) {
    action.AddMessage? || action.RemoveMessage? || action.SetInterval?
    || action.SetRandomMode? || action.SetEnabled?
  }

  /**
   * What carrying out `action` sends or broadcasts: the announcement of the
   * chosen line, for the two announcing actions. `last` is the rotation's
   * last announcement and `draw` its random draw.
   */
  function Effects(gen: Generation, palette: seq<ChatColor>, s: Settings, action: Action, last: int,
                   draw: int, players: seq<Player>): seq<Effect>
    requires IsInt(last) && IsInt(draw)
  {
    match action
    case AnnounceIndex(i) =>
      if 1 <= i <= |s.messages| then AnnounceEffects(gen, palette, s, s.messages[i - 1], players) else []
    case AnnounceNext =>
      var step := Tick(last, s.enabled, s.random, |s.messages|, draw);
      if step.trigger.Announce? && 1 <= step.trigger.index <= |s.messages|
      then AnnounceEffects(gen, palette, s, s.messages[step.trigger.index - 1], players)
      else []
    case _ => []
  }

  /**
   * How carrying out `action` ends: reloading an unknown colour, the random
   * pick on an empty store, an announce() whose index lies outside the list
   * and a list page whose first index is below 1 throw.
   */
  function Completes(gen: Generation, palette: seq<ChatColor>, s: Settings, action: Action, last: int,
                     draw: int, file: Document): Completion
    requires IsInt(last) && IsInt(draw)
  {
    match action
    case ReloadConfig =>
      var failure := Load(gen, palette, file, s).failure;
      if failure.Some? then Threw(UnknownColor(failure.value)) else Returned
    case AnnounceNext =>
      var t := Tick(last, s.enabled, s.random, |s.messages|, draw).trigger;
      if t.DivisionByZero? then Threw(ArithmeticFailure)
      else if t.Announce? && !(1 <= t.index <= |s.messages|) then Threw(IndexFailure)
      else Returned
    case ListIndexOutOfBounds => Threw(IndexFailure)
    case _ => Returned
  }

  /** The StringBuilder loop of `add` and `prefix`: the words after the verb, each followed by a space. */
  method BuildMessage(args: seq<string>) returns (message: string)
    requires |args| >= 1
    ensures message == JoinWords(args[1..])
  {
    message := "";
    for index := 1 to |args|
      invariant message == JoinWords(args[1..index])
    {
      JoinWordsAppend(args[1..index], args[index]);
      assert args[1..index + 1] == args[1..index] + [args[index]];
      message := message + args[index] + " ";
    }
    assert args[1..|args|] == args[1..];
  }

  /** The list loop: indices lo..hi with their expanded messages. */
  method ListLines(palette: seq<ChatColor>, messages: seq<string>, lo: int, hi: int) returns (lines: seq<Reply>)
    requires 1 <= lo && hi <= |messages|
    ensures lines == Entries(palette, messages, lo, hi)
  {
    lines := [];
    if hi < lo {
      return;
    }
    var index := lo;
    while index <= hi
      invariant lo <= index <= hi + 1
      invariant lines == Entries(palette, messages, lo, index - 1)
      decreases hi - index
    {
      var text := ReplaceColorCodes(palette, messages[index - 1]);
      lines := lines + [Entry(index, text)];
      index := index + 1;
    }
  }

  /**
   * The page bounds in int arithmetic and the loop over them; None when the
   * first index is below 1 and getAnnouncement throws on it.
   */
  method ListPage(palette: seq<ChatColor>, messages: seq<string>, page: int) returns (lines: Option<seq<Reply>>)
    ensures lines == ListAsWritten(palette, messages, page)
  {
    var indexStart := Wrap(Abs(Wrap(page - 1)) * EntriesPerPage);
    var indexStop := Wrap(page * EntriesPerPage);
    if indexStop >= |messages| {
      indexStop := |messages|;
    }
    var first := Wrap(indexStart + 1);
    assert first == PageFirstAsWritten(page) && indexStop == PageStopAsWritten(page, |messages|);
    if first < 1 {
      lines := if first <= indexStop then None else Some([]);
    } else {
      var entries := ListLines(palette, messages, first, indexStop);
      lines := Some(entries);
    }
  }

  class AnnouncerCommandExecutor {
    const plugin: AnnouncerPlugin

    constructor (plugin: AnnouncerPlugin)
      ensures this.plugin == plugin
    {
      this.plugin := plugin;
    }

    /** onAddCommand's decision. */
    method OnAddCommand(args: seq<string>, perms: set<Permission>) returns (o: Option<Decision>)
      requires |args| >= 1
      ensures o == OnAdd(args, perms)
    {
      if PermAdd !in perms {
        return None;
      }
      if |args| > 1 {
        var message := BuildMessage(args);
        o := Some(Decision(AddMessage(message), [Added]));
      } else {
        o := Some(Decision(NoAction, [NeedMessage]));
      }
    }

    /** onPrefixCommand's decision. */
    method OnPrefixCommand(args: seq<string>, perms: set<Permission>) returns (o: Option<Decision>)
      requires |args| >= 1
      ensures o == OnPrefix(args, perms)
    {
      if PermModerate !in perms {
        return None;
      }
      if |args| > 1 {
        var prefix := BuildMessage(args);
        o := Some(Decision(SetPrefix(prefix), [PrefixSet]));
      } else {
        o := Some(Decision(NoAction, [PrefixIs]));
      }
    }

    /**
     * onListCommand of the newer generation: the header, then one page, its
     * bounds computed in int arithmetic. A first index below 1 makes the
     * loop's first getAnnouncement throw.
     */
    method OnListPagedCommand(palette: seq<ChatColor>, messages: seq<string>, args: seq<string>,
                              perms: set<Permission>, parsed: Option<int>) returns (o: Option<Decision>)
      ensures o == OnListPaged(palette, messages, args, perms, parsed)
    {
      if PermModerate !in perms {
        return None;
      }
      if |args| == 1 || |args| == 2 {
        var page := 1;
        var replies := [];
        if |args| == 2 {
          match parsed
          case Some(p) =>
            page := p;
          case None =>
            replies := [InvalidPageNumber];
        }
        replies := replies + [ListHeader(page, |messages| / EntriesPerPage + 1)];
        var lines := ListPage(palette, messages, page);
        match lines
        case Some(entries) =>
          o := Some(Decision(NoAction, replies + entries));
        case None =>
          o := Some(Decision(ListIndexOutOfBounds, replies));
      } else {
        o := Some(Decision(NoAction, [WrongArgumentCount]));
      }
    }

    /** onListCommand of the older generation: the header, then every announcement. */
    method OnListAllCommand(palette: seq<ChatColor>, messages: seq<string>, args: seq<string>,
                            perms: set<Permission>) returns (o: Option<Decision>)
      ensures o == OnListAll(palette, messages, args, perms)
    {
      if PermModerate !in perms {
        return None;
      }
      if |args| == 1 {
        var lines := ListLines(palette, messages, 1, |messages|);
        o := Some(Decision(NoAction, [UnpagedHeader] + lines));
      } else {
        o := Some(Decision(NoAction, [WrongArgumentCount]));
      }
    }

    /**
     * The chain of verbs in onCommand: the handler's decision, None when it
     * returns false. The if-chain and the handler methods follow the Java
     * class method by method; Route and the On* functions of Commands are
     * their specification, and the methods here run the StringBuilder and
     * list loops the functions describe.
     */
    method Dispatch(args: seq<string>, perms: set<Permission>, parsed: Option<int>) returns (o: Option<Decision>)
      ensures o == Route(plugin.gen, plugin.palette, plugin.State(), args, perms, parsed)
    {
      var gen, palette := plugin.gen, plugin.palette;
      if |args| == 0 || Is(args[0], "version") || Is(args[0], "info") {
        o := Some(Decision(NoAction, [VersionScreen]));
      } else if Is(args[0], "help") {
        o := Some(Decision(NoAction, [HelpScreen(HelpTopics(gen, perms))]));
      } else if Is(args[0], "add") {
        o := OnAddCommand(args, perms);
      } else if Is(args[0], "broadcast") || (gen == Newer && Is(args[0], "now")) {
        o := OnBroadcast(args, perms, parsed, |plugin.messages|);
      } else if Is(args[0], "list") {
        if gen == Newer {
          o := OnListPagedCommand(palette, plugin.messages, args, perms, parsed);
        } else {
          o := OnListAllCommand(palette, plugin.messages, args, perms);
        }
      } else if Is(args[0], "delete") {
        o := OnDelete(plugin.messages, args, perms, parsed);
      } else if Is(args[0], "interval") {
        o := OnInterval(plugin.interval, args, perms, parsed);
      } else if gen == Newer && Is(args[0], "prefix") {
        o := OnPrefixCommand(args, perms);
      } else if Is(args[0], "random") {
        o := OnRandom(plugin.random, args, perms);
      } else if Is(args[0], "enable") {
        o := OnEnable(plugin.random, args, perms);
      } else if Is(args[0], "reload") {
        o := OnReload(args, perms);
      } else {
        o := None;
      }
    }

    /**
     * Carries out `action` on the plugin. `draw` is the thread's
     * Random.nextInt(), `players` the online players and `file` the content
     * of the configuration file a reload reads.
     */
    method Perform(action: Action, draw: int, players: seq<Player>, file: Document)
      returns (completion: Completion, effects: seq<Effect>)
      requires plugin.Valid() && IsInt(draw)
      requires action.RemoveMessage? || action.AnnounceIndex? ==> 1 <= action.index <= |plugin.messages|
      modifies plugin, plugin.thread
      ensures plugin.Valid()
      ensures plugin.State() == Next(plugin.gen, plugin.palette, old(plugin.State()), action, file)
      ensures Saves(action) ==> && plugin.config == old(plugin.config) + Snapshot(plugin.State())
                                && plugin.persisted == plugin.config && Written(plugin.persisted, plugin.State())
      ensures action == ReloadConfig ==> plugin.config == file && plugin.persisted == file
      ensures !Saves(action) && action != ReloadConfig ==>
                plugin.config == old(plugin.config) && plugin.persisted == old(plugin.persisted)
      ensures plugin.taskPeriod == if action.SetInterval? then action.interval * 10 else old(plugin.taskPeriod)
      ensures plugin.thread.lastAnnouncement
           == if action.AnnounceNext? then Tick(old(plugin.thread.lastAnnouncement), plugin.enabled, plugin.random,
                                               |plugin.messages|, draw).last
              else old(plugin.thread.lastAnnouncement)
      ensures effects == Effects(plugin.gen, plugin.palette, old(plugin.State()), action,
                                 old(plugin.thread.lastAnnouncement), draw, players)
      ensures completion == Completes(plugin.gen, plugin.palette, old(plugin.State()), action,
                                      old(plugin.thread.lastAnnouncement), draw, file)
    {
      completion, effects := Returned, [];
      if Saves(action) {
        Store(action);
      } else if action == ReloadConfig {
        completion := Reload(file);
      } else if action.AnnounceIndex? || action == AnnounceNext {
        completion, effects := Announce(action, draw, players);
      } else if action == ListIndexOutOfBounds {
        completion := Threw(IndexFailure);
      }
    }

    /** announce(index) and announce(), the two actions of `broadcast`. */
    method Announce(action: Action, draw: int, players: seq<Player>) returns (completion: Completion, effects: seq<Effect>)
      requires plugin.Valid() && IsInt(draw)
      requires action.AnnounceIndex? ==> 1 <= action.index <= |plugin.messages|
      requires action.AnnounceIndex? || action == AnnounceNext
      modifies plugin.thread
      ensures plugin.Valid()
      ensures plugin.thread.lastAnnouncement
           == if action.AnnounceNext? then Tick(old(plugin.thread.lastAnnouncement), plugin.enabled, plugin.random,
                                               |plugin.messages|, draw).last
              else old(plugin.thread.lastAnnouncement)
      ensures effects == Effects(plugin.gen, plugin.palette, plugin.State(), action,
                                 old(plugin.thread.lastAnnouncement), draw, players)
      ensures completion == Completes(plugin.gen, plugin.palette, plugin.State(), action,
                                      old(plugin.thread.lastAnnouncement), draw, map[])
    {
      if action.AnnounceIndex? {
        completion := Returned;
        var o := plugin.AnnounceIndex(action.index, players);
        effects := o.effects;
      } else {
        completion, effects := Rotate(draw, players);
      }
    }

    /** announce(): one run of the rotation thread, which may throw on an empty store. */
    method Rotate(draw: int, players: seq<Player>) returns (completion: Completion, effects: seq<Effect>)
      requires plugin.Valid() && IsInt(draw)
      modifies plugin.thread
      ensures plugin.Valid()
      ensures plugin.thread.lastAnnouncement
           == Tick(old(plugin.thread.lastAnnouncement), plugin.enabled, plugin.random, |plugin.messages|, draw).last
      ensures effects == Effects(plugin.gen, plugin.palette, plugin.State(), AnnounceNext,
                                 old(plugin.thread.lastAnnouncement), draw, players)
      ensures completion == Completes(plugin.gen, plugin.palette, plugin.State(), AnnounceNext,
                                      old(plugin.thread.lastAnnouncement), draw, map[])
    {
      ghost var st := plugin.State();
      var o := plugin.AnnounceNext(draw, players);
      assert plugin.State() == st;
      if o.ArithmeticError? {
        completion, effects := Threw(ArithmeticFailure), [];
      } else if o.IndexOutOfBounds? {
        completion, effects := Threw(IndexFailure), [];
      } else {
        completion, effects := Returned, o.effects;
      }
    }

    /** The plugin methods that change a field and save: addAnnouncement, removeAnnouncement and the setters. */
    method Store(action: Action)
      requires Saves(action)
      requires action.RemoveMessage? ==> 1 <= action.index <= |plugin.messages|
      modifies plugin
      ensures plugin.State() == Next(plugin.gen, plugin.palette, old(plugin.State()), action, old(plugin.config))
      ensures plugin.config == old(plugin.config) + Snapshot(plugin.State())
      ensures plugin.persisted == plugin.config && Written(plugin.persisted, plugin.State())
      ensures plugin.taskPeriod == if action.SetInterval? then action.interval * 10 else old(plugin.taskPeriod)
    {
      match action
      case AddMessage(m) =>
        plugin.AddAnnouncement(m);
      case RemoveMessage(i) =>
        var ok := plugin.RemoveAnnouncement(i);
      case SetInterval(n) =>
        plugin.SetAnnouncementInterval(n);
      case SetRandomMode(b) =>
        plugin.SetRandom(b);
      case SetEnabled(b) =>
        plugin.SetAnnouncerEnabled(b);
    }

    /** reloadConfiguration; an unknown colour name escapes as an exception. */
    method Reload(file: Document) returns (completion: Completion)
      modifies plugin
      ensures plugin.State() == Next(plugin.gen, plugin.palette, old(plugin.State()), ReloadConfig, file)
      ensures plugin.config == file && plugin.persisted == file && plugin.taskPeriod == old(plugin.taskPeriod)
      ensures var failure := Load(plugin.gen, plugin.palette, file, old(plugin.State())).failure;
              completion == if failure.Some? then Threw(UnknownColor(failure.value)) else Returned
    {
      var failure := plugin.ReloadConfiguration(file);
      completion := if failure.Some? then Threw(UnknownColor(failure.value)) else Returned;
    }

    /**
     * onCommand: the handler's decision, carried out; a refused command
     * only gets the invalid-arguments reply. The replies are sent unless
     * an exception escaped first.
     */
    method OnCommand(args: seq<string>, perms: set<Permission>, parsed: Option<int>, draw: int,
                     players: seq<Player>, file: Document)
      returns (completion: Completion, replies: seq<Reply>, effects: seq<Effect>)
      requires plugin.Valid() && IsInt(draw)
      modifies plugin, plugin.thread
      ensures plugin.Valid()
      ensures var d := Decide(plugin.gen, plugin.palette, old(plugin.State()), args, perms, parsed);
              && plugin.State() == Next(plugin.gen, plugin.palette, old(plugin.State()), d.action, file)
              && (Saves(d.action) ==> && plugin.config == old(plugin.config) + Snapshot(plugin.State())
                                       && plugin.persisted == plugin.config
                                       && Written(plugin.persisted, plugin.State()))
              && (!Saves(d.action) && d.action != ReloadConfig ==>
                    plugin.config == old(plugin.config) && plugin.persisted == old(plugin.persisted))
              && (d.action == NoAction ==> effects == [])
              && plugin.taskPeriod == (if d.action.SetInterval? then d.action.interval * 10 else old(plugin.taskPeriod))
              && replies == (if completion == Returned || d.action == ListIndexOutOfBounds then d.replies else [])
              && (d.action == ReloadConfig ==> plugin.config == file && plugin.persisted == file)
              && plugin.thread.lastAnnouncement
                 == (if d.action.AnnounceNext? then Tick(old(plugin.thread.lastAnnouncement), plugin.enabled,
                                                         plugin.random, |plugin.messages|, draw).last
                     else old(plugin.thread.lastAnnouncement))
              && effects == Effects(plugin.gen, plugin.palette, old(plugin.State()), d.action,
                                    old(plugin.thread.lastAnnouncement), draw, players)
              && completion == Completes(plugin.gen, plugin.palette, old(plugin.State()), d.action,
                                         old(plugin.thread.lastAnnouncement), draw, file)
    {
      var o := Dispatch(args, perms, parsed);
      var d := Finish(o);
      IndexActionsInRange(plugin.gen, plugin.palette, plugin.State(), args, perms, parsed);
      completion, effects := Perform(d.action, draw, players, file);
      replies := if completion == Returned || d.action == ListIndexOutOfBounds then d.replies else [];
    }
  }
}
