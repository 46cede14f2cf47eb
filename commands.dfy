/**
 * The decisions of AnnouncerCommandExecutor: which handler a command line
 * reaches, whether the sender may use it, what the handler asks the plugin to
 * do and what it replies. Permissions and the result of Integer.parseInt on
 * the second argument are inputs; the plugin's fields are read from Settings.
 */
module Commands {
  import opened Wrappers
  import opened JavaLang
  import opened ChatColors
  import opened Config

  /** The plugin's permissions: announcer.receiver, .add, .delete, .broadcast, .moderate, .admin. */
  datatype Permission = PermReceive | PermAdd | PermDelete | PermBroadcast | PermModerate | PermAdmin

  /** What a handler asks the plugin to do. */
  datatype Action =
    | NoAction
    | AddMessage(message: string)
    | AnnounceIndex(index: int)
    | AnnounceNext
    | RemoveMessage(index: int)
    | SetInterval(interval: int)
    | SetRandomMode(random: bool)
    | SetEnabled(enabled: bool)
    | ReloadConfig
    | SetPrefix(prefix: string)
    | ListIndexOutOfBounds    // the list loop's getAnnouncement throws, after the header was sent

  /** The lines of the help screen, each shown only with its permission. */
  datatype Topic =
    | TopicAdd | TopicBroadcast | TopicDelete
    | TopicEnable | TopicInterval | TopicPrefix | TopicList | TopicRandom
    | TopicReload

  /** What the sender is told. */
  datatype Reply =
    | InvalidArguments                   // the handler refused: unknown verb or no permission
    | VersionScreen
    | HelpScreen(topics: seq<Topic>)
    | Added
    | NeedMessage
    | NoSuchIndex
    | IndexNotInteger
    | WrongArgumentCount                 // "Invalid number of arguments!"
    | TooManyArguments                   // "Too many arguments!"
    | InvalidPageNumber
    | ListHeader(page: int, pages: int)
    | UnpagedHeader
    | Entry(index: int, text: string)    // one line of the list: index and expanded message
    | Removed(message: string)
    | IntervalSet
    | IntervalNotNumber
    | PeriodIs(interval: int)
    | PrefixSet
    | PrefixIs
    | RandomEnabled
    | SequentialEnabled
    | RandomModeIs(random: bool)
    | AnnouncerEnabled
    | AnnouncerDisabled
    | AnnouncerIs(flag: bool)
    | UseTrueOrFalse
    | Reloaded
    | NoArgumentsExpected

  datatype Decision = Decision(action: Action, replies: seq<Reply>)

  const EntriesPerPage: int := 7

  /** The reply to a command a handler refused (it returned false). */
  const Refused: Decision := Decision(NoAction, [InvalidArguments])

  predicate Is(arg: string, verb: string) {
    EqualsIgnoreCase(arg, verb)
  }

  // ---------------------------------------------------------------------------
  // Joining the words of `add` and `prefix`
  // ---------------------------------------------------------------------------

  /** The StringBuilder loop: every word followed by one space, the last one included. */
  function JoinWords(words: seq<string>): string {
    if words == [] then "" else words[0] + " " + JoinWords(words[1..])
  }

  /** Appending a word appends it and a space: the step of the loop. */
  lemma {:induction false} JoinWordsAppend(words: seq<string>, w: string)
    ensures JoinWords(words + [w]) == JoinWords(words) + w + " "
    decreases |words|
  {
    if words == [] {
      assert [w][1..] == [];
    } else {
      assert (words + [w])[1..] == words[1..] + [w];
      JoinWordsAppend(words[1..], w);
    }
  }

  /**
   * Cutting the joined message at its spaces gives back the words, and an
   * empty piece after the final space: no word is lost, merged or reordered.
   */
  lemma {:induction false} JoinWordsSplit(words: seq<string>)
    requires forall k :: 0 <= k < |words| ==> ' ' !in words[k]
    ensures SplitAll(JoinWords(words), " ") == words + [""]
    decreases |words|
  {
    if words == [] {
      assert SplitAll("", " ") == [""];
    } else {
      JoinWordsSplit(words[1..]);
      SplitAllCons(words[0], ' ', JoinWords(words[1..]));
      assert words[0] + " " + JoinWords(words[1..]) == words[0] + [' '] + JoinWords(words[1..]);
      assert [words[0]] + (words[1..] + [""]) == words + [""];
    }
  }

  // ---------------------------------------------------------------------------
  // Paging of `list`
  // ---------------------------------------------------------------------------

  /** The list lines from 1-based index `lo` to `hi`, in order. */
  function Entries(palette: seq<ChatColor>, messages: seq<string>, lo: int, hi: int): (r: seq<Reply>)
    requires 1 <= lo && hi <= |messages|
    ensures |r| == if hi < lo then 0 else hi - lo + 1
    ensures forall k :: 0 <= k < |r| ==> r[k] == Entry(lo + k, Expand(palette, messages[lo + k - 1]))
    decreases hi - lo
  {
    if hi < lo then []
    else Entries(palette, messages, lo, hi - 1) + [Entry(hi, Expand(palette, messages[hi - 1]))]
  }

  /** Math.abs(page - 1) * 7 without overflow: the entries before the page. */
  function PageStart(page: int): (n: int)
    ensures n >= 0
    ensures page >= 1 ==> n == (page - 1) * EntriesPerPage
  {
    (if page - 1 < 0 then 1 - page else page - 1) * EntriesPerPage
  }

  /** Math.min(page * 7, size) without overflow: the last entry of the page. */
  function PageStop(page: int, size: nat): (n: int)
    ensures n <= size
    ensures page <= 0 ==> n <= 0
    ensures page >= 1 ==> n == if page * EntriesPerPage < size then page * EntriesPerPage else size
  {
    if page * EntriesPerPage < size then page * EntriesPerPage else size
  }

  /** The first line the page lists. */
  function PageFirst(page: int): (n: int)
    ensures n >= 1
  {
    PageStart(page) + 1
  }

  // ---------------------------------------------------------------------------
  // The handlers; None is `return false`
  // ---------------------------------------------------------------------------

  function OnAdd(args: seq<string>, perms: set<Permission>): Option<Decision>
    requires |args| >= 1
  {
    if PermAdd !in perms then None
    else if |args| > 1 then Some(Decision(AddMessage(JoinWords(args[1..])), [Added]))
    else Some(Decision(NoAction, [NeedMessage]))
  }

  function OnBroadcast(args: seq<string>, perms: set<Permission>, parsed: Option<int>, size: nat): Option<Decision> {
    if PermBroadcast !in perms then None
    else if |args| == 2 then
      match parsed
      case None => Some(Decision(NoAction, [IndexNotInteger]))
      case Some(i) =>
        if 0 < i <= size then Some(Decision(AnnounceIndex(i), []))
        else Some(Decision(NoAction, [NoSuchIndex]))
    else if |args| == 1 then Some(Decision(AnnounceNext, []))
    else Some(Decision(NoAction, [WrongArgumentCount]))
  }

  /**
   * The paged list of the newer generation: the warning and the header, then
   * the page as the int arithmetic computes it. When the loop's first index
   * is below 1, getAnnouncement throws once the header has been sent.
   */
  function OnListPaged(palette: seq<ChatColor>, messages: seq<string>, args: seq<string>,
                       perms: set<Permission>, parsed: Option<int>): Option<Decision>
  {
    if PermModerate !in perms then None
    else if |args| == 1 || |args| == 2 then
      var page := if |args| == 2 && parsed.Some? then parsed.value else 1;
      var warning := if |args| == 2 && parsed.None? then [InvalidPageNumber] else [];
      var header := ListHeader(page, |messages| / EntriesPerPage + 1);
      match ListAsWritten(palette, messages, page)
      case Some(lines) => Some(Decision(NoAction, warning + [header] + lines))
      case None => Some(Decision(ListIndexOutOfBounds, warning + [header]))
    else Some(Decision(NoAction, [WrongArgumentCount]))
  }

  /** The whole list of the older generation. */
  function OnListAll(palette: seq<ChatColor>, messages: seq<string>, args: seq<string>,
                     perms: set<Permission>): Option<Decision>
  {
    if PermModerate !in perms then None
    else if |args| == 1 then
      Some(Decision(NoAction, [UnpagedHeader] + Entries(palette, messages, 1, |messages|)))
    else Some(Decision(NoAction, [WrongArgumentCount]))
  }

  function OnDelete(messages: seq<string>, args: seq<string>, perms: set<Permission>,
                    parsed: Option<int>): Option<Decision>
  {
    if PermDelete !in perms then None
    else if |args| == 2 then
      match parsed
      case None => Some(Decision(NoAction, [IndexNotInteger]))
      case Some(i) =>
        if 0 < i <= |messages| then Some(Decision(RemoveMessage(i), [Removed(messages[i - 1])]))
        else Some(Decision(NoAction, [NoSuchIndex]))
    else Some(Decision(NoAction, [TooManyArguments]))
  }

  function OnInterval(interval: int, args: seq<string>, perms: set<Permission>,
                      parsed: Option<int>): Option<Decision>
  {
    if PermModerate !in perms then None
    else if |args| == 2 then
      match parsed
      case None => Some(Decision(NoAction, [IntervalNotNumber]))
      case Some(n) => Some(Decision(SetInterval(n), [IntervalSet]))
    else if |args| == 1 then Some(Decision(NoAction, [PeriodIs(interval)]))
    else Some(Decision(NoAction, [TooManyArguments]))
  }

  function OnPrefix(args: seq<string>, perms: set<Permission>): Option<Decision>
    requires |args| >= 1
  {
    if PermModerate !in perms then None
    else if |args| > 1 then Some(Decision(SetPrefix(JoinWords(args[1..])), [PrefixSet]))
    else Some(Decision(NoAction, [PrefixIs]))
  }

  function OnRandom(random: bool, args: seq<string>, perms: set<Permission>): Option<Decision> {
    if PermModerate !in perms then None
    else if |args| == 2 then
      if Is(args[1], "true") then Some(Decision(SetRandomMode(true), [RandomEnabled]))
      else if Is(args[1], "false") then Some(Decision(SetRandomMode(false), [SequentialEnabled]))
      else Some(Decision(NoAction, [UseTrueOrFalse]))
    else if |args| == 1 then Some(Decision(NoAction, [RandomModeIs(random)]))
    else Some(Decision(NoAction, [WrongArgumentCount]))
  }

  /** The query without an argument reports the random flag, as the handler does. */
  function OnEnable(random: bool, args: seq<string>, perms: set<Permission>): Option<Decision> {
    if PermModerate !in perms then None
    else if |args| == 2 then
      if Is(args[1], "true") then Some(Decision(SetEnabled(true), [AnnouncerEnabled]))
      else if Is(args[1], "false") then Some(Decision(SetEnabled(false), [AnnouncerDisabled]))
      else Some(Decision(NoAction, [UseTrueOrFalse]))
    else if |args| == 1 then Some(Decision(NoAction, [AnnouncerIs(random)]))
    else Some(Decision(NoAction, [WrongArgumentCount]))
  }

  function OnReload(args: seq<string>, perms: set<Permission>): Option<Decision> {
    if PermModerate !in perms then None
    else if |args| == 1 then Some(Decision(ReloadConfig, [Reloaded]))
    else Some(Decision(NoAction, [NoArgumentsExpected]))
  }

  /** The help screen: the topics the sender's permissions unlock, in screen order. */
  function HelpTopics(gen: Generation, perms: set<Permission>): seq<Topic> {
    (if PermAdd in perms then [TopicAdd] else [])
    + (if PermBroadcast in perms then [TopicBroadcast] else [])
    + (if PermDelete in perms then [TopicDelete] else [])
    + (if PermModerate in perms then
         [TopicEnable, TopicInterval] + (if gen == Newer then [TopicPrefix] else []) + [TopicList, TopicRandom]
       else [])
    + (if PermAdmin in perms then [TopicReload] else [])
  }

  /** onCommand's chain of verbs, tried in order; None when no handler accepts. */
  function Route(gen: Generation, palette: seq<ChatColor>, s: Settings, args: seq<string>,
                 perms: set<Permission>, parsed: Option<int>): Option<Decision>
  {
    if |args| == 0 || Is(args[0], "version") || Is(args[0], "info") then Some(Decision(NoAction, [VersionScreen]))
    else if Is(args[0], "help") then Some(Decision(NoAction, [HelpScreen(HelpTopics(gen, perms))]))
    else if Is(args[0], "add") then OnAdd(args, perms)
    else if Is(args[0], "broadcast") || (gen == Newer && Is(args[0], "now")) then
      OnBroadcast(args, perms, parsed, |s.messages|)
    else if Is(args[0], "list") then
      if gen == Newer then OnListPaged(palette, s.messages, args, perms, parsed)
      else OnListAll(palette, s.messages, args, perms)
    else if Is(args[0], "delete") then OnDelete(s.messages, args, perms, parsed)
    else if Is(args[0], "interval") then OnInterval(s.interval, args, perms, parsed)
    else if gen == Newer && Is(args[0], "prefix") then OnPrefix(args, perms)
    else if Is(args[0], "random") then OnRandom(s.random, args, perms)
    else if Is(args[0], "enable") then OnEnable(s.random, args, perms)
    else if Is(args[0], "reload") then OnReload(args, perms)
    else None
  }

  /** A refused command gets the generic invalid-arguments reply. */
  function Finish(o: Option<Decision>): Decision {
    if o.Some? then o.value else Refused
  }

  /**
   * The decision for `/announce args` from a sender with `perms`, where
   * `parsed` is Integer.parseInt(args[1]) (None for a NumberFormatException).
   */
  function Decide(gen: Generation, palette: seq<ChatColor>, s: Settings, args: seq<string>,
                  perms: set<Permission>, parsed: Option<int>): Decision
  {
    Finish(Route(gen, palette, s, args, perms, parsed))
  }

  // ---------------------------------------------------------------------------
  // Routing
  // ---------------------------------------------------------------------------

  /** The verbs, all in lower-case ASCII. */
  const Verbs: set<string> :=
    {"version", "info", "help", "add", "broadcast", "now", "list", "delete", "interval", "prefix",
     "random", "enable", "reload"}

  /** A verb is matched by exactly the arguments that fold to it. */
  lemma VerbMatch(arg: string, v: string, w: string)
    requires v in Verbs && w in Verbs && Is(arg, v)
    ensures Is(arg, w) <==> v == w
  {
    LowerAsciiFixed(v, w);
  }

  /**
   * Verbs are matched without regard to case: two command lines whose first
   * arguments fold to the same string and whose other arguments agree are
   * decided alike.
   */
  lemma CaseInsensitive(gen: Generation, palette: seq<ChatColor>, s: Settings, args: seq<string>,
                        args': seq<string>, perms: set<Permission>, parsed: Option<int>)
    requires |args| >= 1 && |args'| == |args| && Lower(args'[0]) == Lower(args[0]) && args'[1..] == args[1..]
    ensures Decide(gen, palette, s, args', perms, parsed) == Decide(gen, palette, s, args, perms, parsed)
  {
    assert |args| >= 2 ==> args'[1] == args[1] by {
      if |args| >= 2 {
        assert args'[1..][0] == args[1..][0];
      }
    }
  }

  /** In particular a command line is decided as the one with its verb folded to lower case. */
  lemma FoldedVerb(gen: Generation, palette: seq<ChatColor>, s: Settings, args: seq<string>,
                   perms: set<Permission>, parsed: Option<int>)
    requires |args| >= 1
    ensures Decide(gen, palette, s, [Lower(args[0])] + args[1..], perms, parsed) == Decide(gen, palette, s, args, perms, parsed)
  {
    LowerIdempotent(args[0]);
    var args' := [Lower(args[0])] + args[1..];
    assert args'[1..] == args[1..];
    CaseInsensitive(gen, palette, s, args, args', perms, parsed);
  }

  /** No arguments at all show the version screen, whatever the permissions. */
  lemma NoArgumentsShowVersion(gen: Generation, palette: seq<ChatColor>, s: Settings,
                               perms: set<Permission>, parsed: Option<int>)
    ensures Decide(gen, palette, s, [], perms, parsed) == Decision(NoAction, [VersionScreen])
  {
  }

  /** In the newer generation `now` is `broadcast`. */
  lemma NowIsBroadcast(palette: seq<ChatColor>, s: Settings, args: seq<string>,
                       perms: set<Permission>, parsed: Option<int>)
    requires |args| >= 1 && Is(args[0], "now")
    ensures Decide(Newer, palette, s, args, perms, parsed)
         == Finish(OnBroadcast(args, perms, parsed, |s.messages|))
  {
    NotEarlier(args[0], "now");
  }

  /** The older generation knows neither `now` nor `prefix`: both are refused. */
  lemma OlderRefusesNowAndPrefix(palette: seq<ChatColor>, s: Settings, args: seq<string>,
                                 perms: set<Permission>, parsed: Option<int>)
    requires |args| >= 1 && (Is(args[0], "now") || Is(args[0], "prefix"))
    ensures Decide(Older, palette, s, args, perms, parsed) == Refused
  {
    var v := if Is(args[0], "now") then "now" else "prefix";
    forall w | w in Verbs
      ensures Is(args[0], w) <==> v == w
    {
      VerbMatch(args[0], v, w);
    }
  }

  /** An argument that matches verb `v` matches none of the verbs tried before it. */
  lemma NotEarlier(arg: string, v: string)
    requires v in Verbs && Is(arg, v)
    ensures forall w :: w in Verbs && w != v ==> !Is(arg, w)
  {
    forall w | w in Verbs && w != v
      ensures !Is(arg, w)
    {
      VerbMatch(arg, v, w);
    }
  }

  /** The permission each verb's handler checks first; the version and help screens need none. */
  function RequiredPermission(v: string): Option<Permission> {
    if v == "add" then Some(PermAdd)
    else if v == "broadcast" || v == "now" then Some(PermBroadcast)
    else if v == "delete" then Some(PermDelete)
    else if v in {"list", "interval", "prefix", "random", "enable", "reload"} then Some(PermModerate)
    else None
  }

  /**
   * A sender without the handler's permission is refused and nothing
   * happens; `reload` in particular checks the moderator permission.
   */
  lemma MissingPermissionRefused(gen: Generation, palette: seq<ChatColor>, s: Settings, v: string,
                                 args: seq<string>, perms: set<Permission>, parsed: Option<int>)
    requires |args| >= 1 && v in Verbs && Is(args[0], v)
    requires RequiredPermission(v).Some? && RequiredPermission(v).value !in perms
    ensures Decide(gen, palette, s, args, perms, parsed) == Refused
  {
    NotEarlier(args[0], v);
  }

  /** An argument that is no verb of the generation is refused. */
  lemma UnknownVerbRefused(gen: Generation, palette: seq<ChatColor>, s: Settings, args: seq<string>,
                           perms: set<Permission>, parsed: Option<int>)
    requires |args| >= 1
    requires forall w :: w in Verbs ==> !Is(args[0], w)
    ensures Decide(gen, palette, s, args, perms, parsed) == Refused
  {
    assert !Is(args[0], "version") && !Is(args[0], "info") && !Is(args[0], "help") && !Is(args[0], "add");
    assert !Is(args[0], "broadcast") && !Is(args[0], "now") && !Is(args[0], "list") && !Is(args[0], "delete");
    assert !Is(args[0], "interval") && !Is(args[0], "prefix") && !Is(args[0], "random");
    assert !Is(args[0], "enable") && !Is(args[0], "reload");
  }

  // ---------------------------------------------------------------------------
  // Store actions
  // ---------------------------------------------------------------------------

  /** Whatever the command, the store is only indexed inside it. */
  lemma IndexActionsInRange(gen: Generation, palette: seq<ChatColor>, s: Settings, args: seq<string>,
                            perms: set<Permission>, parsed: Option<int>)
    ensures var a := Decide(gen, palette, s, args, perms, parsed).action;
            && (a.AnnounceIndex? ==> 1 <= a.index <= |s.messages|)
            && (a.RemoveMessage? ==> 1 <= a.index <= |s.messages|)
  {
  }

  /**
   * `delete <i>` removes exactly when the sender may delete, there are two
   * arguments, the index parses and it lies in 1..size; it replies with the
   * message it removes.
   */
  lemma DeleteIff(gen: Generation, palette: seq<ChatColor>, s: Settings, args: seq<string>,
                  perms: set<Permission>, parsed: Option<int>, i: int)
    requires |args| >= 1 && Is(args[0], "delete")
    ensures Decide(gen, palette, s, args, perms, parsed).action == RemoveMessage(i)
        <==> PermDelete in perms && |args| == 2 && parsed == Some(i) && 1 <= i <= |s.messages|
    ensures Decide(gen, palette, s, args, perms, parsed).action == RemoveMessage(i)
        ==> Decide(gen, palette, s, args, perms, parsed).replies == [Removed(s.messages[i - 1])]
    ensures |args| != 2 ==> Decide(gen, palette, s, args, perms, parsed).action == NoAction
  {
    NotEarlier(args[0], "delete");
  }

  /** `broadcast <i>` announces exactly an index inside the store, and `broadcast` alone the next one. */
  lemma BroadcastIff(gen: Generation, palette: seq<ChatColor>, s: Settings, args: seq<string>,
                     perms: set<Permission>, parsed: Option<int>, i: int)
    requires |args| >= 1 && Is(args[0], "broadcast")
    ensures Decide(gen, palette, s, args, perms, parsed).action == AnnounceIndex(i)
        <==> PermBroadcast in perms && |args| == 2 && parsed == Some(i) && 1 <= i <= |s.messages|
    ensures Decide(gen, palette, s, args, perms, parsed).action == AnnounceNext
        <==> PermBroadcast in perms && |args| == 1
  {
    NotEarlier(args[0], "broadcast");
  }

  /**
   * `add` stores the remaining words, each followed by one space; without
   * words it only asks for a message.
   */
  lemma AddJoinsWords(gen: Generation, palette: seq<ChatColor>, s: Settings, args: seq<string>,
                      perms: set<Permission>, parsed: Option<int>)
    requires |args| >= 1 && Is(args[0], "add") && PermAdd in perms
    ensures |args| > 1 ==> Decide(gen, palette, s, args, perms, parsed) == Decision(AddMessage(JoinWords(args[1..])), [Added])
    ensures |args| == 1 ==> Decide(gen, palette, s, args, perms, parsed) == Decision(NoAction, [NeedMessage])
  {
    NotEarlier(args[0], "add");
  }

  // ---------------------------------------------------------------------------
  // true / false
  // ---------------------------------------------------------------------------

  /**
   * `random` and `enable` change their flag only for "true" or "false" in any
   * case, and to that value.
   */
  lemma FlagParsing(random: bool, arg: string, perms: set<Permission>, b: bool)
    requires PermModerate in perms
    ensures OnRandom(random, ["random", arg], perms).value.action == SetRandomMode(b)
        <==> Is(arg, if b then "true" else "false")
    ensures OnEnable(random, ["enable", arg], perms).value.action == SetEnabled(b)
        <==> Is(arg, if b then "true" else "false")
    ensures !Is(arg, "true") && !Is(arg, "false") ==>
              OnRandom(random, ["random", arg], perms).value == Decision(NoAction, [UseTrueOrFalse])
  {
    assert ["random", arg][1] == arg && ["enable", arg][1] == arg;
  }

  /** The `enable` query reports the random flag, not the enabled one. */
  lemma EnableQueryReportsRandom(s: Settings, perms: set<Permission>)
    requires PermModerate in perms
    ensures OnEnable(s.random, ["enable"], perms) == Some(Decision(NoAction, [AnnouncerIs(s.random)]))
    ensures s.enabled != s.random ==> OnEnable(s.random, ["enable"], perms).value.replies != [AnnouncerIs(s.enabled)]
  {
  }

  /**
   * `reload` is run for a moderator although the help screen shows it only
   * to an administrator.
   */
  lemma ReloadHelpGap(gen: Generation)
    ensures TopicReload !in HelpTopics(gen, {PermModerate})
    ensures OnReload(["reload"], {PermModerate}) == Some(Decision(ReloadConfig, [Reloaded]))
  {
  }

  // ---------------------------------------------------------------------------
  // `list`
  // ---------------------------------------------------------------------------

  /**
   * Page `p` lists the 1-based indices |p-1|*7+1 .. min(p*7, size), in
   * order, each with its expanded message.
   */
  lemma PagedListing(palette: seq<ChatColor>, messages: seq<string>, page: int, k: int)
    requires 0 <= k < |Entries(palette, messages, PageFirst(page), PageStop(page, |messages|))|
    ensures var first := (if page - 1 < 0 then 1 - page else page - 1) * 7 + 1;
            var r := Entries(palette, messages, PageFirst(page), PageStop(page, |messages|));
            && first + k <= |messages| && first + k <= page * 7
            && r[k] == Entry(first + k, Expand(palette, messages[first + k - 1]))
  {
  }

  /** A page at or below 0, or past the end, lists nothing. */
  lemma EmptyPages(palette: seq<ChatColor>, messages: seq<string>, page: int)
    requires page <= 0 || PageStart(page) >= |messages|
    ensures Entries(palette, messages, PageFirst(page), PageStop(page, |messages|)) == []
  {
  }

  /** Consecutive pages follow each other: page p + 1 starts right after page p. */
  lemma {:induction false} PagesTile(palette: seq<ChatColor>, messages: seq<string>, p: nat)
    ensures Entries(palette, messages, 1, PageStop(p, |messages|))
         == (if p == 0 then [] else
               Entries(palette, messages, 1, PageStop(p - 1, |messages|))
               + Entries(palette, messages, PageFirst(p), PageStop(p, |messages|)))
  {
    if p > 0 {
      if PageStart(p) >= |messages| {
        assert Entries(palette, messages, PageFirst(p), PageStop(p, |messages|)) == [];
      } else {
        EntriesSplit(palette, messages, 1, PageStart(p), PageStop(p, |messages|));
      }
    }
  }

  /** Entries lo..hi are entries lo..mid followed by mid+1..hi. */
  lemma EntriesSplit(palette: seq<ChatColor>, messages: seq<string>, lo: int, mid: int, hi: int)
    requires 1 <= lo && lo - 1 <= mid && hi <= |messages|
    requires mid < hi
    ensures Entries(palette, messages, lo, hi)
         == Entries(palette, messages, lo, mid) + Entries(palette, messages, mid + 1, hi)
  {
    var whole := Entries(palette, messages, lo, hi);
    var left, right := Entries(palette, messages, lo, mid), Entries(palette, messages, mid + 1, hi);
    assert |whole| == |left| + |right|;
    forall k | 0 <= k < |whole|
      ensures whole[k] == (left + right)[k]
    {
      if k >= |left| {
        assert (left + right)[k] == right[k - |left|];
      }
    }
  }

  /**
   * The header reports size / 7 + 1 pages: one page too many when the size
   * is a positive multiple of 7, and that last page lists nothing.
   */
  lemma PageCountOverstates(palette: seq<ChatColor>, messages: seq<string>)
    requires |messages| > 0 && |messages| % EntriesPerPage == 0
    ensures var last := |messages| / EntriesPerPage + 1;
            Entries(palette, messages, PageFirst(last), PageStop(last, |messages|)) == []
  {
  }

  /** An unparseable page number is reported and page 1 is listed all the same. */
  lemma UnparseablePageListsFirst(palette: seq<ChatColor>, messages: seq<string>, arg: string,
                                  perms: set<Permission>)
    requires PermModerate in perms
    ensures OnListPaged(palette, messages, ["list", arg], perms, None)
         == Some(Decision(NoAction, [InvalidPageNumber, ListHeader(1, |messages| / 7 + 1)]
                                    + Entries(palette, messages, 1, if 7 < |messages| then 7 else |messages|)))
  {
    var args := ["list", arg];
    assert |args| == 2;
    PagingAsWrittenAgrees(palette, messages, 1);
    var header := ListHeader(1, |messages| / EntriesPerPage + 1);
    var e := Entries(palette, messages, PageFirst(1), PageStop(1, |messages|));
    assert [InvalidPageNumber] + [header] + e == [InvalidPageNumber, header] + e;
  }

  /** The older `list` lists every index 1..size and refuses any argument. */
  lemma UnpagedListing(palette: seq<ChatColor>, messages: seq<string>, rest: seq<string>, perms: set<Permission>)
    requires PermModerate in perms
    ensures |rest| == 0 ==>
              OnListAll(palette, messages, ["list"] + rest, perms).value.replies
              == [UnpagedHeader] + Entries(palette, messages, 1, |messages|)
    ensures |rest| > 0 ==>
              OnListAll(palette, messages, ["list"] + rest, perms).value == Decision(NoAction, [WrongArgumentCount])
  {
  }

  // ---------------------------------------------------------------------------
  // The paging arithmetic as written, in 32-bit ints
  // ---------------------------------------------------------------------------

  /** Math.abs(page - 1) * ENTRIES_PER_PAGE in int arithmetic. */
  function PageStartAsWritten(page: int): (n: int)
    ensures IsInt(n)
  {
    Wrap(Abs(Wrap(page - 1)) * EntriesPerPage)
  }

  /** Math.min(page * ENTRIES_PER_PAGE, size) in int arithmetic. */
  function PageStopAsWritten(page: int, size: nat): (n: int)
    ensures n <= size
    ensures n == size || n == Wrap(page * EntriesPerPage)
  {
    var p := Wrap(page * EntriesPerPage);
    if p < size then p else size
  }

  /** The loop's first index, indexStart + 1 in int arithmetic. */
  function PageFirstAsWritten(page: int): (n: int)
    ensures IsInt(n)
    ensures PageStartAsWritten(page) < IntMax ==> n == PageStartAsWritten(page) + 1
  {
    Wrap(PageStartAsWritten(page) + 1)
  }

  /**
   * The list loop as written: indices first .. stop, each read with
   * getAnnouncement. None is the IndexOutOfBoundsException of the first
   * index when it is below 1 (the stop never exceeds the size).
   */
  function ListAsWritten(palette: seq<ChatColor>, messages: seq<string>, page: int): (r: Option<seq<Reply>>)
    ensures var first := PageFirstAsWritten(page);
            r.None? <==> first < 1 && first <= PageStopAsWritten(page, |messages|)
  {
    var first := PageFirstAsWritten(page);
    var stop := PageStopAsWritten(page, |messages|);
    if first < 1 then (if first <= stop then None else Some([]))
    else Some(Entries(palette, messages, first, stop))
  }

  /** For every page whose products fit in an int, the loop lists exactly the intended page. */
  lemma PagingAsWrittenAgrees(palette: seq<ChatColor>, messages: seq<string>, page: int)
    requires -306783377 <= page <= 306783378
    ensures PageStartAsWritten(page) == PageStart(page)
    ensures PageFirstAsWritten(page) == PageFirst(page)
    ensures PageStopAsWritten(page, |messages|) == PageStop(page, |messages|)
    ensures ListAsWritten(palette, messages, page)
         == Some(Entries(palette, messages, PageFirst(page), PageStop(page, |messages|)))
  {
  }

  /**
   * On every page whose products fit in an int, `list <page>` replies the
   * header and then exactly the intended page.
   */
  lemma ListedPageInRange(palette: seq<ChatColor>, messages: seq<string>, arg: string, page: int,
                          perms: set<Permission>)
    requires PermModerate in perms && -306783377 <= page <= 306783378
    ensures OnListPaged(palette, messages, ["list", arg], perms, Some(page))
         == Some(Decision(NoAction, [ListHeader(page, |messages| / 7 + 1)]
                                    + Entries(palette, messages, PageFirst(page), PageStop(page, |messages|))))
  {
    PagingAsWrittenAgrees(palette, messages, page);
    var header := ListHeader(page, |messages| / EntriesPerPage + 1);
    var e := Entries(palette, messages, PageFirst(page), PageStop(page, |messages|));
    assert [] + [header] + e == [header] + e;
  }

  /** `list 306783380` sends the header, then its first getAnnouncement throws. */
  lemma ListCommandOverflowThrows(palette: seq<ChatColor>, messages: seq<string>, arg: string,
                                  perms: set<Permission>)
    requires PermModerate in perms && |messages| <= IntMax
    ensures OnListPaged(palette, messages, ["list", arg], perms, Some(306783380))
         == Some(Decision(ListIndexOutOfBounds, [ListHeader(306783380, |messages| / 7 + 1)]))
  {
    var args := ["list", arg];
    assert |args| == 2;
    PagingOverflowThrows(palette, messages);
    var header := ListHeader(306783380, |messages| / EntriesPerPage + 1);
    assert [] + [header] == [header];
  }

  /**
   * Page 306783380: the start wraps to a negative number, so the loop asks
   * for announcement -2147483642 and List.get throws, where the intended
   * page lies past any int-sized store and lists nothing.
   */
  lemma PagingOverflowThrows(palette: seq<ChatColor>, messages: seq<string>)
    requires |messages| <= IntMax
    ensures PageStartAsWritten(306783380) == -2147483643
    ensures PageStopAsWritten(306783380, |messages|) == -2147483636
    ensures ListAsWritten(palette, messages, 306783380) == None
    ensures Entries(palette, messages, PageFirst(306783380), PageStop(306783380, |messages|)) == []
  {
  }

  /**
   * Page 613566758 wraps around to the indices 4..10: with ten or more
   * announcements it lists seven entries of pages 1 and 2, where the
   * intended page lists nothing.
   */
  lemma PagingOverflowWraps(palette: seq<ChatColor>, messages: seq<string>)
    requires 10 <= |messages| <= IntMax
    ensures PageStartAsWritten(613566758) == 3
    ensures PageStopAsWritten(613566758, |messages|) == 10
    ensures ListAsWritten(palette, messages, 613566758) == Some(Entries(palette, messages, 4, 10))
    ensures |Entries(palette, messages, 4, 10)| == 7
    ensures Entries(palette, messages, PageFirst(613566758), PageStop(613566758, |messages|)) == []
  {
  }
}
