/**
 * The plugin's settings as they live in its configuration: eight keys under
 * "announcement.", the typed getters with their defaults, the write of all
 * eight keys by saveConfiguration, and the read of all of them by
 * reloadConfiguration.
 */
module Config {
  import opened Wrappers
  import opened JavaLang
  import opened ChatColors

  /** The two generations of the plugin: the Bukkit-configuration one and the older one. */
  datatype Generation = Newer | Older

  /** A configuration value as the plugin writes it. */
  datatype ConfigValue =
    | Str(s: string)
    | Int(n: int)
    | Bool(b: bool)
    | StrList(items: seq<string>)

  /** The configuration: dotted key to value. */
  type Document = map<string, ConfigValue>

  const MessagesKey: string := "announcement.messages"
  const IntervalKey: string := "announcement.interval"
  const MessageColorKey: string := "announcement.broadcast-color"
  const TagKey: string := "announcement.broadcast-tag"
  const TagColorKey: string := "announcement.broadcast-tag-color"
  const EnabledKey: string := "announcement.enabled"
  const RandomKey: string := "announcement.random"
  const SendToAllKey: string := "announcement.sendToAll"

  const Keys: set<string> :=
    {MessagesKey, IntervalKey, MessageColorKey, TagKey, TagColorKey, EnabledKey, RandomKey, SendToAllKey}

  const DefaultTag: string := "Announcement"
  const DefaultMessageColor: string := "LIGHT_PURPLE"
  const DefaultInterval: int := 1000

  /** The messages the older generation falls back to when the file has none. */
  const DefaultMessages: seq<string> := [
    "This is the first default announcement!",
    "Use /announce help to get info how to config this plugin.",
    "You can also configure this plugin with its 'config.yml' too!"
  ]

  /** The eight configured fields of the plugin. */
  datatype Settings = Settings(
    messages: seq<string>,
    tag: string,
    messageColor: ChatColor,
    tagColor: ChatColor,
    interval: int,
    enabled: bool,
    random: bool,
    sendToAll: bool)

  // ---------------------------------------------------------------------------
  // Writing: saveConfiguration
  // ---------------------------------------------------------------------------

  /** The eight values saveConfiguration sets; colours are stored by name. */
  function Snapshot(s: Settings): (d: Document)
    ensures d.Keys == Keys
    ensures d[MessagesKey] == StrList(s.messages) && d[TagKey] == Str(s.tag)
  {
    map[
      MessagesKey := StrList(s.messages),
      IntervalKey := Int(s.interval),
      MessageColorKey := Str(s.messageColor.name),
      TagKey := Str(s.tag),
      TagColorKey := Str(s.tagColor.name),
      EnabledKey := Bool(s.enabled),
      RandomKey := Bool(s.random),
      SendToAllKey := Bool(s.sendToAll)
    ]
  }

  /** The document holds, under each of the eight keys, the value saved for `s`. */
  predicate Written(doc: Document, s: Settings) {
    forall k :: k in Snapshot(s) ==> k in doc && doc[k] == Snapshot(s)[k]
  }

  /**
   * Setting the eight keys over any document records `s` and leaves every
   * other key as it was.
   */
  lemma SaveWrites(doc: Document, s: Settings)
    ensures Written(doc + Snapshot(s), s)
    ensures forall k :: k in doc && k !in Keys ==> k in doc + Snapshot(s) && (doc + Snapshot(s))[k] == doc[k]
  {
  }

  // ---------------------------------------------------------------------------
  // Reading: the typed getters
  // ---------------------------------------------------------------------------

  /** Decimal rendering of an integer, as Long.toString. */
  function DecimalText(n: int): (r: string)
    ensures |r| > 0
    decreases if n < 0 then -n + 1 else n
  {
    if n < 0 then "-" + DecimalText(-n)
    else if n < 10 then [HexDigit(n)]
    else DecimalText(n / 10) + [HexDigit(n % 10)]
  }

  function JoinList(items: seq<string>): string {
    if |items| == 0 then ""
    else if |items| == 1 then items[0]
    else items[0] + ", " + JoinList(items[1..])
  }

  /** toString of a stored value, which is what getString returns for a non-string. */
  function ValueText(v: ConfigValue): string {
    match v
    case Str(s) => s
    case Int(n) => DecimalText(n)
    case Bool(b) => if b then "true" else "false"
    case StrList(items) => "[" + JoinList(items) + "]"
  }

  function GetString(doc: Document, key: string, default: string): (r: string)
    ensures key !in doc ==> r == default
    ensures key in doc && doc[key].Str? ==> r == doc[key].s
  {
    if key in doc then ValueText(doc[key]) else default
  }

  /** getInt: a number is narrowed to 32 bits; anything else gives the default. */
  function GetInt(doc: Document, key: string, default: int): (r: int)
    ensures key in doc && doc[key].Int? && IsInt(doc[key].n) ==> r == doc[key].n
    ensures !(key in doc && doc[key].Int?) ==> r == default
  {
    if key in doc && doc[key].Int? then Wrap(doc[key].n) else default
  }

  function GetBoolean(doc: Document, key: string, default: bool): (r: bool)
    ensures key in doc && doc[key].Bool? ==> r == doc[key].b
    ensures !(key in doc && doc[key].Bool?) ==> r == default
  {
    if key in doc && doc[key].Bool? then doc[key].b else default
  }

  /**
   * getStringList: the newer configuration gives an empty list for a missing
   * or non-list value, the older one the three default messages.
   */
  function GetStringList(gen: Generation, doc: Document, key: string): (r: seq<string>)
    ensures key in doc && doc[key].StrList? ==> r == doc[key].items
    ensures !(key in doc && doc[key].StrList?) ==> r == (if gen == Newer then [] else DefaultMessages)
  {
    if key in doc && doc[key].StrList? then doc[key].items
    else if gen == Newer then []
    else DefaultMessages
  }

  // ---------------------------------------------------------------------------
  // ChatColor.valueOf
  // ---------------------------------------------------------------------------

  /** The first palette entry with this name; None is the IllegalArgumentException. */
  function ValueOf(palette: seq<ChatColor>, name: string): (r: Option<ChatColor>)
    ensures r.Some? ==> r.value in palette && r.value.name == name
    ensures r.None? <==> forall c :: c in palette ==> c.name != name
  {
    if palette == [] then None
    else if palette[0].name == name then Some(palette[0])
    else ValueOf(palette[1..], name)
  }

  predicate UniqueNames(palette: seq<ChatColor>) {
    forall j, k :: 0 <= j < k < |palette| ==> palette[j].name != palette[k].name
  }

  /** In an enumeration (distinct names) every constant is found by its own name. */
  lemma {:induction false} ValueOfMember(palette: seq<ChatColor>, c: ChatColor)
    requires UniqueNames(palette) && c in palette
    ensures ValueOf(palette, c.name) == Some(c)
  {
    if palette[0] != c {
      assert palette[0].name != c.name by {
        var k :| 0 <= k < |palette| && palette[k] == c;
        assert k > 0;
      }
      assert UniqueNames(palette[1..]) by {
        forall j, k | 0 <= j < k < |palette[1..]|
          ensures palette[1..][j].name != palette[1..][k].name
        {
          assert palette[1..][j] == palette[j + 1] && palette[1..][k] == palette[k + 1];
        }
      }
      ValueOfMember(palette[1..], c);
    }
  }

  // ---------------------------------------------------------------------------
  // Reading: reloadConfiguration
  // ---------------------------------------------------------------------------

  /**
   * The result of reloadConfiguration: the new field values and, when a
   * colour name is not a ChatColor constant, that name. The fields are
   * assigned one after the other, so a bad colour leaves the fields after it
   * at their previous values.
   */
  datatype Loaded = Loaded(settings: Settings, failure: Option<string>)

  function Load(gen: Generation, palette: seq<ChatColor>, doc: Document, prior: Settings): (r: Loaded)
    ensures r.settings.tag == GetString(doc, TagKey, DefaultTag)
    ensures r.failure.None? ==>
      && r.settings.messageColor in palette
      && r.settings.tagColor in palette
      && r.settings.messageColor.name == GetString(doc, MessageColorKey, DefaultMessageColor)
      && r.settings.tagColor.name == GetString(doc, TagColorKey, r.settings.messageColor.name)
      && r.settings.messages == GetStringList(gen, doc, MessagesKey)
      && r.settings.interval == GetInt(doc, IntervalKey, DefaultInterval)
      && r.settings.enabled == GetBoolean(doc, EnabledKey, true)
      && r.settings.random == GetBoolean(doc, RandomKey, false)
      && r.settings.sendToAll == GetBoolean(doc, SendToAllKey, true)
    ensures r.failure.Some? ==>
      && ValueOf(palette, r.failure.value).None?
      && r.settings.(tag := prior.tag, messageColor := prior.messageColor) == prior
  {
    var tag := GetString(doc, TagKey, DefaultTag);
    var messageColorName := GetString(doc, MessageColorKey, DefaultMessageColor);
    match ValueOf(palette, messageColorName)
    case None => Loaded(prior.(tag := tag), Some(messageColorName))
    case Some(messageColor) =>
      var tagColorName := GetString(doc, TagColorKey, messageColor.name);
      match ValueOf(palette, tagColorName)
      case None => Loaded(prior.(tag := tag, messageColor := messageColor), Some(tagColorName))
      case Some(tagColor) =>
        Loaded(
          Settings(
            GetStringList(gen, doc, MessagesKey),
            tag,
            messageColor,
            tagColor,
            GetInt(doc, IntervalKey, DefaultInterval),
            GetBoolean(doc, EnabledKey, true),
            GetBoolean(doc, RandomKey, false),
            GetBoolean(doc, SendToAllKey, true)),
          None)
  }

  /**
   * Reading an empty configuration gives the defaults: tag "Announcement",
   * both colours LIGHT_PURPLE, interval 1000, enabled, sequential, sent to
   * all; no messages in the newer generation, the three default ones in the
   * older.
   */
  lemma LoadDefaults(gen: Generation, palette: seq<ChatColor>, prior: Settings)
    requires ValueOf(palette, DefaultMessageColor).Some?
    ensures var r := Load(gen, palette, map[], prior);
            && r.failure == None
            && r.settings.tag == "Announcement"
            && r.settings.messageColor == ValueOf(palette, "LIGHT_PURPLE").value
            && r.settings.tagColor == r.settings.messageColor
            && r.settings.interval == 1000
            && r.settings.enabled && !r.settings.random && r.settings.sendToAll
            && r.settings.messages == (if gen == Newer then [] else DefaultMessages)
  {
    var mc := ValueOf(palette, DefaultMessageColor).value;
    assert ValueOf(palette, mc.name) == Some(mc) by {
      ValueOfFirst(palette, mc.name);
    }
  }

  /** Looking up the name of the entry found is stable: the first match is found again. */
  lemma {:induction false} ValueOfFirst(palette: seq<ChatColor>, name: string)
    requires ValueOf(palette, name).Some?
    ensures ValueOf(palette, ValueOf(palette, name).value.name) == ValueOf(palette, name)
  {
    assert ValueOf(palette, name).value.name == name;
  }

  /**
   * What saveConfiguration writes, reloadConfiguration reads back: any
   * document that holds the eight saved values loads to the same settings,
   * provided both colours are found by their names and the interval fits in
   * an int.
   */
  lemma SaveThenLoad(gen: Generation, palette: seq<ChatColor>, doc: Document, s: Settings, prior: Settings)
    requires Written(doc, s)
    requires ValueOf(palette, s.messageColor.name) == Some(s.messageColor)
    requires ValueOf(palette, s.tagColor.name) == Some(s.tagColor)
    requires IsInt(s.interval)
    ensures Load(gen, palette, doc, prior) == Loaded(s, None)
  {
    assert doc[TagKey] == Str(s.tag) && doc[MessageColorKey] == Str(s.messageColor.name);
    assert doc[TagColorKey] == Str(s.tagColor.name) && doc[MessagesKey] == StrList(s.messages);
    assert doc[IntervalKey] == Int(s.interval) && doc[EnabledKey] == Bool(s.enabled);
    assert doc[RandomKey] == Bool(s.random) && doc[SendToAllKey] == Bool(s.sendToAll);
  }

  /**
   * An unknown message colour aborts the reload after the tag: only the tag
   * has its new value.
   */
  lemma UnknownMessageColor(gen: Generation, palette: seq<ChatColor>, doc: Document, prior: Settings)
    requires ValueOf(palette, GetString(doc, MessageColorKey, DefaultMessageColor)).None?
    ensures Load(gen, palette, doc, prior)
         == Loaded(prior.(tag := GetString(doc, TagKey, DefaultTag)),
                   Some(GetString(doc, MessageColorKey, DefaultMessageColor)))
  {
  }

  /** An unknown tag colour aborts the reload after the tag and the message colour. */
  lemma UnknownTagColor(gen: Generation, palette: seq<ChatColor>, doc: Document, prior: Settings, mc: ChatColor)
    requires ValueOf(palette, GetString(doc, MessageColorKey, DefaultMessageColor)) == Some(mc)
    requires ValueOf(palette, GetString(doc, TagColorKey, mc.name)).None?
    ensures Load(gen, palette, doc, prior)
         == Loaded(prior.(tag := GetString(doc, TagKey, DefaultTag), messageColor := mc),
                   Some(GetString(doc, TagColorKey, mc.name)))
  {
  }
}
