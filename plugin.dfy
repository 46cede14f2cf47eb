/**
 * AnnouncerPlugin: the announcement store and the configured fields, every
 * mutator followed by saveConfiguration, and the three ways of announcing
 * (a line, a 1-based index, the next index of the rotation).
 */
module Plugin {
  import opened Wrappers
  import opened JavaLang
  import opened ChatColors
  import opened Config
  import opened Delivery
  import opened Rotation

  /** How a call that announces ends: its effects, or the exception it throws. */
  datatype Outcome =
    | Done(effects: seq<Effect>)
    | IndexOutOfBounds     // List.get with an index outside the list
    | ArithmeticError      // the random pick's `% size` on an empty store

  /** List.remove(i - 1): the list without its i-th element (1-based). */
  function RemoveAt(xs: seq<string>, i: int): (r: seq<string>)
    requires 1 <= i <= |xs|
    ensures |r| == |xs| - 1
    ensures forall j :: 0 <= j < i - 1 ==> r[j] == xs[j]
    ensures forall j :: i - 1 <= j < |r| ==> r[j] == xs[j + 1]
  {
    xs[..i - 1] + xs[i..]
  }

  /** Removing an element loses that element and nothing else. */
  lemma RemoveAtMultiset(xs: seq<string>, i: int)
    requires 1 <= i <= |xs|
    ensures multiset(RemoveAt(xs, i)) + multiset{xs[i - 1]} == multiset(xs)
  {
    assert xs == xs[..i - 1] + [xs[i - 1]] + xs[i..];
  }

  /** Appending then removing the new last element gives the list back. */
  lemma AddThenRemove(xs: seq<string>, m: string)
    ensures RemoveAt(xs + [m], |xs| + 1) == xs
  {
    assert (xs + [m])[..|xs|] == xs;
  }

  class AnnouncerPlugin {
    const gen: Generation
    /** ChatColor.values(), in enumeration order. */
    const palette: seq<ChatColor>
    const thread: AnnouncerThread

    var messages: seq<string>
    var tag: string
    var messageColor: ChatColor
    var tagColor: ChatColor
    var interval: int
    var enabled: bool
    var random: bool
    var sendToAll: bool

    /** The configuration in memory (getConfig() / getConfiguration()). */
    var config: Document
    /** Period, in server ticks, of the repeating task that runs the thread. */
    var taskPeriod: int
    /** The content of the configuration file. */
    ghost var persisted: Document

    ghost predicate Valid()
      reads thread
    {
      thread.Valid()
    }

    /** The eight configured fields. */
    function State(): Settings
      reads this
    {
      Settings(messages, tag, messageColor, tagColor, interval, enabled, random, sendToAll)
    }

    /**
     * The plugin as onEnable leaves it: the fields read from `file`, the
     * rotation at its start and the timer set to fire every `interval * 10` ticks.
     */
    constructor (gen: Generation, palette: seq<ChatColor>, file: Document, s: Settings)
      ensures Valid() && fresh(thread)
      ensures this.gen == gen && this.palette == palette
      ensures State() == s && thread.lastAnnouncement == 0
      ensures config == file && persisted == file
      ensures taskPeriod == s.interval * 10
    {
      this.gen := gen;
      this.palette := palette;
      thread := new AnnouncerThread();
      messages := s.messages;
      tag := s.tag;
      messageColor := s.messageColor;
      tagColor := s.tagColor;
      interval := s.interval;
      enabled := s.enabled;
      random := s.random;
      sendToAll := s.sendToAll;
      config := file;
      persisted := file;
      taskPeriod := s.interval * 10;
    }

    /** saveConfiguration: set the eight keys from the fields and write the file. */
    method SaveConfiguration()
      modifies this
      ensures config == old(config) + Snapshot(State())
      ensures persisted == config && Written(persisted, State())
      ensures State() == old(State()) && taskPeriod == old(taskPeriod)
    {
      config := config + Snapshot(State());
      persisted := config;
      SaveWrites(old(config), State());
    }

    /** addAnnouncement: append, then save. */
    method AddAnnouncement(message: string)
      modifies this
      ensures State() == old(State()).(messages := old(messages) + [message])
      ensures config == old(config) + Snapshot(State()) && persisted == config
      ensures Written(persisted, State()) && taskPeriod == old(taskPeriod)
    {
      messages := messages + [message];
      SaveConfiguration();
    }

    /** getAnnouncement: element `index - 1`; None is the IndexOutOfBoundsException. */
    function GetAnnouncement(index: int): (r: Option<string>)
      reads this
      ensures r.Some? <==> 1 <= index <= |messages|
      ensures r.Some? ==> r.value == messages[index - 1]
    {
      if 1 <= index <= |messages| then Some(messages[index - 1]) else None
    }

    /** numberOfAnnouncements: the 1-based indices 1..n are exactly the readable ones. */
    function NumberOfAnnouncements(): (n: nat)
      reads this
      ensures forall i :: GetAnnouncement(i).Some? <==> 1 <= i <= n
    {
      |messages|
    }

    /** removeAnnouncements: clear, then save. */
    method RemoveAnnouncements()
      modifies this
      ensures State() == old(State()).(messages := [])
      ensures config == old(config) + Snapshot(State()) && persisted == config
      ensures Written(persisted, State()) && taskPeriod == old(taskPeriod)
    {
      messages := [];
      SaveConfiguration();
    }

    /**
     * removeAnnouncement: delete element `index - 1`, then save. Outside the
     * list the removal throws before anything is changed or saved (`ok` false).
     */
    method RemoveAnnouncement(index: int) returns (ok: bool)
      modifies this
      ensures ok <==> 1 <= index <= |old(messages)|
      ensures ok ==> && State() == old(State()).(messages := RemoveAt(old(messages), index))
                     && config == old(config) + Snapshot(State()) && persisted == config
                     && Written(persisted, State()) && taskPeriod == old(taskPeriod)
      ensures !ok ==> unchanged(this)
    {
      if !(1 <= index <= |messages|) {
        return false;
      }
      messages := messages[..index - 1] + messages[index..];
      SaveConfiguration();
      ok := true;
    }

    /** setAnnouncementInterval: set, save, then reschedule every `interval * 10` ticks. */
    method SetAnnouncementInterval(interval: int)
      modifies this
      ensures State() == old(State()).(interval := interval)
      ensures config == old(config) + Snapshot(State()) && persisted == config
      ensures Written(persisted, State())
      ensures taskPeriod == interval * 10
    {
      this.interval := interval;
      SaveConfiguration();
      taskPeriod := interval * 10;
    }

    /** setAnnouncerEnabled: set, then save. */
    method SetAnnouncerEnabled(enabled: bool)
      modifies this
      ensures State() == old(State()).(enabled := enabled)
      ensures config == old(config) + Snapshot(State()) && persisted == config
      ensures Written(persisted, State()) && taskPeriod == old(taskPeriod)
    {
      this.enabled := enabled;
      SaveConfiguration();
    }

    /** setRandom: set, then save. */
    method SetRandom(random: bool)
      modifies this
      ensures State() == old(State()).(random := random)
      ensures config == old(config) + Snapshot(State()) && persisted == config
      ensures Written(persisted, State()) && taskPeriod == old(taskPeriod)
    {
      this.random := random;
      SaveConfiguration();
    }

    /**
     * reloadConfiguration: read `file` and assign the fields from it in turn
     * (Load follows the order of the assignments). A colour name that is no
     * ChatColor stops the assignments there, and the failure carries the name;
     * the running task keeps its period.
     */
    method ReloadConfiguration(file: Document) returns (failure: Option<string>)
      modifies this
      ensures config == file && persisted == file
      ensures Loaded(State(), failure) == Load(gen, palette, file, old(State()))
      ensures taskPeriod == old(taskPeriod)
    {
      var loaded := Load(gen, palette, file, State());
      Adopt(loaded.settings);
      failure := loaded.failure;
      config := file;
      persisted := file;
    }

    /** Assigns the eight configured fields, as reloadConfiguration does one after the other. */
    method Adopt(s: Settings)
      modifies this
      ensures State() == s
      ensures config == old(config) && persisted == old(persisted) && taskPeriod == old(taskPeriod)
    {
      messages, tag, messageColor, tagColor := s.messages, s.tag, s.messageColor, s.tagColor;
      interval, enabled, random, sendToAll := s.interval, s.enabled, s.random, s.sendToAll;
    }

    /** announce(String): the effects of the line's pieces, in order. */
    method Announce(line: string, players: seq<Player>) returns (effects: seq<Effect>)
      ensures effects == AnnounceEffects(gen, palette, State(), line, players)
    {
      var pieces := Split(line, LineBreak);
      effects := [];
      for i := 0 to |pieces|
        invariant effects == PiecesEffects(gen, palette, State(), pieces[..i], players)
      {
        var piece := pieces[i];
        assert pieces[..i + 1][..i] == pieces[..i];
        if |piece| > 0 && piece[0] == '/' {
          effects := effects + [Dispatch(if gen == Newer then Console else PluginSelf, piece[1..])];
        } else {
          var announcement;
          if |tag| > 0 {
            announcement := tagColor.marker + "[" + tag + "] " + messageColor.marker + piece;
          } else {
            announcement := tagColor.marker + " " + messageColor.marker + piece;
          }
          if sendToAll {
            var text := ReplaceColorCodes(palette, announcement);
            effects := effects + [Broadcast(text)];
          } else {
            var text := announcement;
            if gen == Newer {
              text := ReplaceColorCodes(palette, announcement);
            }
            effects := SendToReceivers(effects, players, text);
          }
        }
      }
      assert pieces[..|pieces|] == pieces;
    }

    /** The loop over the online players: one message to each receiver, in order. */
    static method SendToReceivers(prior: seq<Effect>, players: seq<Player>, text: string) returns (effects: seq<Effect>)
      ensures effects == prior + SendToAll(Receivers(players), text)
    {
      effects := prior;
      for j := 0 to |players|
        invariant effects == prior + SendToAll(Receivers(players[..j]), text)
      {
        ReceiversStep(players, j);
        if players[j].receiver {
          ghost var sent := SendToAll(Receivers(players[..j]), text);
          SendToAllStep(Receivers(players[..j]), players[j], text);
          assert (prior + sent) + [SendTo(players[j], text)] == prior + (sent + [SendTo(players[j], text)]);
          effects := effects + [SendTo(players[j], text)];
        }
      }
      assert players[..|players|] == players;
    }

    /** announce(int): the line at 1-based `index`, or the exception of List.get. */
    method AnnounceIndex(index: int, players: seq<Player>) returns (o: Outcome)
      ensures 1 <= index <= |messages| ==> o == Done(AnnounceEffects(gen, palette, State(), messages[index - 1], players))
      ensures !(1 <= index <= |messages|) ==> o == IndexOutOfBounds
    {
      if !(1 <= index <= |messages|) {
        return IndexOutOfBounds;
      }
      var effects := Announce(messages[index - 1], players);
      o := Done(effects);
    }

    /**
     * announce(): one run of the rotation thread with the current flags,
     * store size and random draw, then the announcement it picks.
     */
    method AnnounceNext(draw: int, players: seq<Player>) returns (o: Outcome)
      requires Valid() && IsInt(draw)
      modifies thread
      ensures Valid()
      ensures var step := Tick(old(thread.lastAnnouncement), enabled, random, |messages|, draw);
              && thread.lastAnnouncement == step.last
              && (step.trigger == Idle ==> o == Done([]))
              && (step.trigger == DivisionByZero ==> o == ArithmeticError)
              && (step.trigger.Announce? && 1 <= step.trigger.index <= |messages| ==>
                    o == Done(AnnounceEffects(gen, palette, State(), messages[step.trigger.index - 1], players)))
              && (step.trigger.Announce? && !(1 <= step.trigger.index <= |messages|) ==> o == IndexOutOfBounds)
    {
      var t := thread.Run(enabled, random, |messages|, draw);
      match t
      case Idle =>
        o := Done([]);
      case DivisionByZero =>
        o := ArithmeticError;
      case Announce(index) =>
        o := AnnounceIndex(index, players);
    }
  }
}
