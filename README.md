# ScheduledAnnouncer in Dafny

A model of the ScheduledAnnouncer Bukkit plugin, with proofs about it. The plugin stores a list of
announcement lines. A repeating task picks one of them, sequentially or at random, and delivers it.
Delivery cuts the line at every `&n`. A piece starting with `/` is run as a server command. Every
other piece is framed with a tag and two colours, has its `&x` colour codes expanded, and is
broadcast to everybody or sent to the players holding the receiver permission. Moderators manage
the list and the settings through `/announce <verb> ...`. Every change is written through to the
configuration file.

Both generations of the plugin are modelled, selected by `Config.Generation`:

- `Newer`: the Bukkit-configuration one, under `src/main/java/`.
- `Older`: the one with its own permissions handler, under `src/at/`.

They differ in five ways:

- the sender of dispatched commands;
- whether text for filtered players has its colour codes expanded;
- the default message list;
- the `now` alias and the `prefix` verb;
- paging in `list`.

Modules, one per file:

- `JavaLang` (`java_lang.dfy`): the java.lang behaviour the plugin relies on:
  - 32-bit `int` wrap-around, `Math.abs` and the truncating `%`;
  - `String.replaceAll` with a literal pattern;
  - `String.split` with limit 0, which drops trailing empty pieces;
  - `equalsIgnoreCase` against lower-case ASCII words.
- `ChatColors` (`chat_colors.dfy`): `ChatColorHelper.replaceColorCodes`, one `replaceAll` pass per
  palette entry. The palette is a parameter: the `ChatColor` constants with their names, codes and
  markers.
- `Rotation` (`rotation.dfy`): `AnnouncerThread`, a class holding `lastAnnouncement`. `run()` is
  the method `Run`, specified by the function `Tick`.
- `Config` (`config.dfy`): the eight configuration keys and the typed getters with their defaults.
  It covers what `saveConfiguration` writes (`Snapshot`) and what `reloadConfiguration` reads back
  (`Load`), including the partial update when a colour name is unknown.
- `Delivery` (`delivery.dfy`): `announce(String)` as a list of effects: dispatch, broadcast, and a
  send to one player.
- `Plugin` (`plugin.dfy`): `AnnouncerPlugin`, a class with the eight configured fields. It also
  holds the configuration in memory, the file (ghost), the period of the scheduled task and the
  thread. Each mutator is followed by the save.
- `Commands` (`commands.dfy`): the decisions of `AnnouncerCommandExecutor`:
  - which handler a command line reaches;
  - whether the sender's permissions let it run;
  - what the handler asks the plugin to do;
  - what it replies.
- `Executor` (`executor.dfy`): the executor class. `OnCommand` routes through the same chain of
  verbs and runs the StringBuilder and list loops. It then carries out the decision on the plugin.

Inputs are parameters:

- the sender's permissions, a `set<Permission>`;
- `Integer.parseInt(args[1])`, an `Option<int>` where `None` is the `NumberFormatException`;
- `Random.nextInt()`, `draw`;
- the online players, with their receiver permission;
- the content of the configuration file.

The model follows the code, also where it disagrees with the plugin's documentation or with
what its authors evidently meant (see "## Findings"):

- In random mode with no announcements, `run()` divides by zero and throws `ArithmeticException`.
  It does not skip delivery. Only the sequential mode skips. See `Rotation.Tick` and
  `Executor.Completes`.
- A colour name in the configuration that is no `ChatColor` makes `reloadConfiguration` throw out
  of the command. The fields assigned before it keep their new values.
- The older generation dispatches `/` pieces as the plugin itself, not as the console. It sends
  filtered players the text with its `&x` codes unexpanded.
- `enable` without an argument reports the random flag, not the enabled flag. `reload` checks the
  moderator permission, while the help screen lists it only for administrators.
- The random pick `Math.abs(nextInt()) % size` is negative for the draw Integer.MIN_VALUE. The
  thread then stores that negative index and `announce` throws `IndexOutOfBoundsException`, on this
  run and on the next sequential one. See `Rotation.Tick` and `Rotation.NegativePickPersists`.
- `list <page>` computes its bounds in 32-bit int arithmetic. A large page number can wrap around
  into the data or make the first `getAnnouncement` throw after the header. See `Commands.OnListPaged`
  and `Commands.ListAsWritten`.

## Model

| member | source | states |
|---|---|---|
| JavaLang.Wrap | src/at/co/hohl/Announcer/AnnouncerThread.java:41 | the 32-bit result is in int range, congruent to the mathematical one modulo 2^32, and equal to it when it fits |
| JavaLang.Abs | src/at/co/hohl/Announcer/AnnouncerThread.java:41 | Math.abs is the magnitude for every int except Integer.MIN_VALUE, which it returns unchanged |
| JavaLang.Rem | src/at/co/hohl/Announcer/AnnouncerThread.java:41 | Java's `%` takes the sign of the dividend, is no larger in magnitude than the dividend and smaller than the divisor, and differs from the dividend by a multiple of the divisor |
| JavaLang.SplitAll | src/main/java/at/co/hohl/Announcer/AnnouncerPlugin.java:143 | the pieces are never empty as a list, and joined with the separator they give the line back |
| JavaLang.SplitLimitZero | src/main/java/at/co/hohl/Announcer/AnnouncerPlugin.java:143 | split("&n") is a prefix of all pieces, missing only empty ones and not ending with one, and is the line itself when there is no marker |
| JavaLang.SplitAllPiecesFree | src/main/java/at/co/hohl/Announcer/AnnouncerPlugin.java:143 | no piece still holds the separator |
| JavaLang.SplitAllFree | src/main/java/at/co/hohl/Announcer/AnnouncerPlugin.java:143 | a line without the separator is exactly one piece |
| JavaLang.ReplaceAllFree | src/main/java/at/co/hohl/Announcer/ChatColorHelper.java:25 | replaceAll leaves text without the pattern unchanged |
| JavaLang.ReplaceAllAtTarget | src/main/java/at/co/hohl/Announcer/ChatColorHelper.java:25 | an occurrence at the front is replaced and scanning resumes after it |
| JavaLang.EqualsIgnoreCaseChars | src/main/java/at/co/hohl/Announcer/AnnouncerCommandExecutor.java:59-80 | a string equals a lower-case ASCII word ignoring case exactly when it has the same length and each character is the word's letter, its capital, or a non-ASCII character whose case mapping reaches it |
| JavaLang.DropTrailingEmpty | src/main/java/at/co/hohl/Announcer/AnnouncerPlugin.java:143 | the longest prefix of the pieces that does not end with an empty one, dropping only empty pieces |
| JavaLang.LowerAsciiFixed | src/main/java/at/co/hohl/Announcer/AnnouncerCommandExecutor.java:59-80 | a lower-case ASCII verb equals another such verb, ignoring case, only when they are the same word |
| ChatColors.HexRoundTrip | src/main/java/at/co/hohl/Announcer/ChatColorHelper.java:25 | the `%x` rendering of a colour code reads back as the code |
| ChatColors.Pattern | src/main/java/at/co/hohl/Announcer/ChatColorHelper.java:25 | the searched pattern is `&` followed by one or more lower-case hex digits |
| ChatColors.ReplaceColorCodes | src/main/java/at/co/hohl/Announcer/ChatColorHelper.java:23-29 | the loop over ChatColor.values() computes Expand: the passes in palette order |
| ChatColors.NoAmpersandUnchanged | src/main/java/at/co/hohl/Announcer/ChatColorHelper.java:23-29 | a message without `&` is returned unchanged |
| ChatColors.EmptyUnchanged | src/main/java/at/co/hohl/Announcer/ChatColorHelper.java:23-29 | the empty message stays empty |
| ChatColors.ExpandPrefix | src/main/java/at/co/hohl/Announcer/ChatColorHelper.java:24-26 | text without `&` in front of the first code passes through every pass untouched |
| ChatColors.ExpandKeeps | src/main/java/at/co/hohl/Announcer/ChatColorHelper.java:24-26 | `&` followed by a character that starts no palette code stays literal |
| ChatColors.NonHexCodeStaysLiteral | src/main/java/at/co/hohl/Announcer/ChatColorHelper.java:25 | `&` followed by anything but a lower-case hex digit (`&A`, `&z`, `&n`) is never rewritten |
| ChatColors.PassReplaces | src/main/java/at/co/hohl/Announcer/ChatColorHelper.java:25 | one pass replaces its code by its marker and keeps the `&`-free text before it |
| ChatColors.ExpandReplacesCode | src/main/java/at/co/hohl/Announcer/ChatColorHelper.java:24-26 | with distinct single-digit codes and inert markers, entry k's code at the front becomes entry k's marker and the rest is expanded on its own |
| ChatColors.ExpandConcat | src/main/java/at/co/hohl/Announcer/ChatColorHelper.java:24-26 | each pass runs over the output of the previous ones, in palette order |
| ChatColors.ExpandLeavesNoCode | src/main/java/at/co/hohl/Announcer/ChatColorHelper.java:24-26 | with inert markers no palette code is left after expansion |
| ChatColors.ExpandFixes | src/main/java/at/co/hohl/Announcer/ChatColorHelper.java:24-26 | text holding no palette code is a fixed point |
| ChatColors.Idempotent | src/main/java/at/co/hohl/Announcer/ChatColorHelper.java:23-29 | with markers free of `&` that do not start with a hex digit, expanding twice equals expanding once |
| ChatColors.IdempotenceNeedsNonDigitMarkers | src/main/java/at/co/hohl/Announcer/ChatColorHelper.java:25 | markers free of `&` alone are not enough: a marker starting with a hex digit can complete a code on a second pass |
| Rotation.RandomIndex | src/at/co/hohl/Announcer/AnnouncerThread.java:41 | the intended random pick always lies in 0..size-1 |
| Rotation.RandomIndexAsWritten | src/at/co/hohl/Announcer/AnnouncerThread.java:41 | `Math.abs(draw) % size` in int arithmetic lies strictly between -size and size, and equals the intended pick on every draw but Integer.MIN_VALUE |
| Rotation.RandomIndexAsWrittenAgrees | src/at/co/hohl/Announcer/AnnouncerThread.java:41 | only the draw Integer.MIN_VALUE gives a negative pick; every other draw is in 0..size-1 |
| Rotation.RandomIndexAsWrittenOutOfRange | src/at/co/hohl/Announcer/AnnouncerThread.java:41 | the draw Integer.MIN_VALUE with three announcements gives index -2, which the guard lets through |
| Rotation.NextSequential | src/at/co/hohl/Announcer/AnnouncerThread.java:43-45 | `++lastAnnouncement` in int arithmetic: the next index while it is below the size, back to 0 when it reaches the size, Integer.MIN_VALUE after Integer.MAX_VALUE; below the size of a non-empty store |
| Rotation.Tick | src/at/co/hohl/Announcer/AnnouncerThread.java:38-52 | disabled: nothing changes. Non-empty store: the new index is below the size and index+1 is announced, the random pick as Java computes it and the sequential one as NextSequential. Empty store: random divides by zero, sequential from -1 or more resets to 0 and announces nothing |
| Rotation.AnnouncerThread.constructor | src/at/co/hohl/Announcer/AnnouncerThread.java:24-34 | a new thread starts with last index 0 |
| Rotation.AnnouncerThread.Run | src/at/co/hohl/Announcer/AnnouncerThread.java:38-52 | run() moves the last index and triggers exactly as Tick says, and the index stays an int |
| Rotation.TickAnnouncesInRange | src/at/co/hohl/Announcer/AnnouncerThread.java:38-52 | run() hands announce a valid 1-based index unless the draw is Integer.MIN_VALUE or the sequential last index is below -1 |
| Rotation.NegativePickPersists | src/at/co/hohl/Announcer/AnnouncerThread.java:41-49 | with three announcements the draw Integer.MIN_VALUE announces -1, the next sequential run announces 0, and only the one after that is back at 1 |
| Rotation.SequentialCycle | src/at/co/hohl/Announcer/AnnouncerThread.java:43-49 | from a last index inside an int-sized store, trigger j announces ((last+1+j) mod size)+1: every index in cyclic order |
| Rotation.FirstTriggersFromStart | src/at/co/hohl/Announcer/AnnouncerThread.java:24 | from the initial index 0 the triggers announce 2, 3, ..., N, 1: message 1 comes last in the first cycle |
| Rotation.TwoCycles | src/at/co/hohl/Announcer/AnnouncerThread.java:43-45 | 2N sequential triggers give two identical cycles |
| Rotation.SequentialOnEmptyStore | src/at/co/hohl/Announcer/AnnouncerThread.java:43-49 | on an empty store a sequential trigger from -1 or more resets to 0 and announces nothing; from below -1 it moves up one and announces |
| Rotation.SequentialAfterShrink | src/at/co/hohl/Announcer/AnnouncerThread.java:43-45 | after deletions leave the last index at or past the end, the next trigger announces message 1 (Integer.MAX_VALUE wraps instead) |
| Config.Snapshot | src/main/java/at/co/hohl/Announcer/AnnouncerPlugin.java:174-181 | the save sets exactly the eight keys, the list and tag as they are |
| Config.SaveWrites | src/main/java/at/co/hohl/Announcer/AnnouncerPlugin.java:173-183 | after the save the document records the settings, and every other key keeps its value |
| Config.GetString | src/main/java/at/co/hohl/Announcer/AnnouncerPlugin.java:195 | a missing key gives the default, a stored string is returned as stored |
| Config.GetInt | src/main/java/at/co/hohl/Announcer/AnnouncerPlugin.java:201 | a stored int is returned, a non-number gives the default |
| Config.GetBoolean | src/main/java/at/co/hohl/Announcer/AnnouncerPlugin.java:202-204 | a stored boolean is returned, anything else gives the default |
| Config.GetStringList | src/at/co/hohl/Announcer/AnnouncerPlugin.java:177 | a stored list is returned. Otherwise the newer generation gives the empty list and the older one the three default messages |
| Config.ValueOf | src/main/java/at/co/hohl/Announcer/AnnouncerPlugin.java:196-199 | ChatColor.valueOf finds a constant with that name, and fails exactly when none has it |
| Config.ValueOfMember | src/main/java/at/co/hohl/Announcer/AnnouncerPlugin.java:196-199 | with distinct names, every constant is found by its own name |
| Config.ValueOfFirst | src/main/java/at/co/hohl/Announcer/AnnouncerPlugin.java:198-199 | the tag colour's default, the message colour's name, finds the message colour again |
| Config.Load | src/main/java/at/co/hohl/Announcer/AnnouncerPlugin.java:188-205 | the tag is always read. On success every field is its getter's value. On an unknown colour the fields after it keep their prior values |
| Config.LoadDefaults | src/main/java/at/co/hohl/Announcer/AnnouncerPlugin.java:195-204 | an empty configuration loads "Announcement", LIGHT_PURPLE twice, 1000, enabled, sequential, send to all, and the generation's default list |
| Config.SaveThenLoad | src/main/java/at/co/hohl/Announcer/AnnouncerPlugin.java:173-205 | what the save writes, the reload reads back unchanged, when both colours resolve by name and the interval fits an int |
| Config.UnknownMessageColor | src/main/java/at/co/hohl/Announcer/AnnouncerPlugin.java:195-197 | an unknown message colour aborts the reload after the tag, with that name as the failure |
| Config.UnknownTagColor | src/main/java/at/co/hohl/Announcer/AnnouncerPlugin.java:198-199 | an unknown tag colour aborts after the tag and the message colour |
| Delivery.Template | src/main/java/at/co/hohl/Announcer/AnnouncerPlugin.java:149-154 | `{tagColor}[{tag}] {messageColor}{piece}` with a tag, `{tagColor} {messageColor}{piece}` without one |
| Delivery.Receivers | src/main/java/at/co/hohl/Announcer/AnnouncerPlugin.java:160-161 | there are never more receivers than online players |
| Delivery.SendToAll | src/main/java/at/co/hohl/Announcer/AnnouncerPlugin.java:160-164 | exactly one message per receiver |
| Delivery.SendToAllElements | src/main/java/at/co/hohl/Announcer/AnnouncerPlugin.java:160-164 | the i-th message goes to the i-th receiver, and all carry the same text |
| Delivery.ReceiversExact | src/main/java/at/co/hohl/Announcer/AnnouncerPlugin.java:160-164 | a player gets the text exactly when it is online and holds the receiver permission |
| Delivery.ReceiversConcat | src/main/java/at/co/hohl/Announcer/AnnouncerPlugin.java:160-164 | filtering keeps the iteration order |
| Delivery.CommandPiece | src/main/java/at/co/hohl/Announcer/AnnouncerPlugin.java:145-146 | a `/` piece is one dispatch of the rest, by the console (newer) or the plugin (older), and sends no text |
| Delivery.BroadcastPiece | src/main/java/at/co/hohl/Announcer/AnnouncerPlugin.java:156-158 | with sendToAll a text piece is one broadcast of the expanded template |
| Delivery.FilteredPiece | src/at/co/hohl/Announcer/AnnouncerPlugin.java:138-145 | without sendToAll each receiver gets the template, expanded in the newer generation and raw in the older |
| Delivery.PiecesConcat | src/main/java/at/co/hohl/Announcer/AnnouncerPlugin.java:144 | pieces are delivered in order: effects of a concatenation are concatenated |
| Delivery.PiecesSingle | src/main/java/at/co/hohl/Announcer/AnnouncerPlugin.java:144 | one piece has exactly its own effects |
| Delivery.ExpandedTemplate | src/main/java/at/co/hohl/Announcer/AnnouncerPlugin.java:149-156 | with `&`-free tag and markers, expansion touches only the piece inside the frame |
| Delivery.PiecesDispatchFree | src/main/java/at/co/hohl/Announcer/AnnouncerPlugin.java:143-146 | no dispatched command holds the `&n` marker, given pieces without it |
| Delivery.AnnounceDispatchFree | src/main/java/at/co/hohl/Announcer/AnnouncerPlugin.java:143-146 | no command dispatched by announce(line) holds the `&n` marker |
| Delivery.SinglePieceLine | src/main/java/at/co/hohl/Announcer/AnnouncerPlugin.java:143 | a line without `&n` is delivered as one piece |
| Delivery.EmptyLineSendsFrame | src/main/java/at/co/hohl/Announcer/AnnouncerPlugin.java:143 | the empty line still broadcasts the bare frame |
| Delivery.MarkerOnlyLineIsSilent | src/main/java/at/co/hohl/Announcer/AnnouncerPlugin.java:143 | the line "&n" has no pieces and does nothing |
| Delivery.TrailingMarkerDropped | src/main/java/at/co/hohl/Announcer/AnnouncerPlugin.java:143 | "x&n" announces exactly what "x" announces |
| Delivery.CommandThenText | src/main/java/at/co/hohl/Announcer/AnnouncerPlugin.java:143-166 | "/cmd&ntext" dispatches the command first, then delivers the text |
| Delivery.SplitAllJoined | src/main/java/at/co/hohl/Announcer/AnnouncerPlugin.java:143 | a + "&n" + b, neither holding the marker, splits into exactly [a, b] |
| Plugin.RemoveAt | src/main/java/at/co/hohl/Announcer/AnnouncerPlugin.java:272 | List.remove(i-1) shortens by one, keeps the elements before, shifts those after |
| Plugin.RemoveAtMultiset | src/main/java/at/co/hohl/Announcer/AnnouncerPlugin.java:272 | the removal loses that one element and nothing else |
| Plugin.AddThenRemove | src/main/java/at/co/hohl/Announcer/AnnouncerPlugin.java:235-273 | adding a message and removing the last index gives the list back |
| Plugin.AnnouncerPlugin.constructor | src/main/java/at/co/hohl/Announcer/AnnouncerPlugin.java:84-111 | a fresh thread at index 0, the loaded fields, and the timer set to fire every interval*10 ticks |
| Plugin.AnnouncerPlugin.SaveConfiguration | src/main/java/at/co/hohl/Announcer/AnnouncerPlugin.java:173-183 | the eight keys are set over the configuration in memory, and the file then holds it |
| Plugin.AnnouncerPlugin.AddAnnouncement | src/main/java/at/co/hohl/Announcer/AnnouncerPlugin.java:235-238 | the message is appended and the new state written through |
| Plugin.AnnouncerPlugin.GetAnnouncement | src/main/java/at/co/hohl/Announcer/AnnouncerPlugin.java:246-248 | defined exactly for 1..size, giving element index-1 |
| Plugin.AnnouncerPlugin.NumberOfAnnouncements | src/main/java/at/co/hohl/Announcer/AnnouncerPlugin.java:253-255 | the readable 1-based indices are exactly 1..n |
| Plugin.AnnouncerPlugin.RemoveAnnouncements | src/main/java/at/co/hohl/Announcer/AnnouncerPlugin.java:260-263 | the list is cleared and written through |
| Plugin.AnnouncerPlugin.RemoveAnnouncement | src/main/java/at/co/hohl/Announcer/AnnouncerPlugin.java:270-273 | succeeds exactly for 1..size, removing that element and saving. Otherwise it throws and nothing changes |
| Plugin.AnnouncerPlugin.SetAnnouncementInterval | src/main/java/at/co/hohl/Announcer/AnnouncerPlugin.java:219-228 | the interval is set and saved, and the timer reset to fire every interval*10 ticks |
| Plugin.AnnouncerPlugin.SetAnnouncerEnabled | src/main/java/at/co/hohl/Announcer/AnnouncerPlugin.java:286-289 | the enabled flag is set and saved, nothing else changes |
| Plugin.AnnouncerPlugin.SetRandom | src/main/java/at/co/hohl/Announcer/AnnouncerPlugin.java:295-298 | the random flag is set and saved, nothing else changes |
| Plugin.AnnouncerPlugin.Adopt | src/main/java/at/co/hohl/Announcer/AnnouncerPlugin.java:195-204 | the eight fields take the loaded values, and the configuration and task are untouched |
| Plugin.AnnouncerPlugin.ReloadConfiguration | src/main/java/at/co/hohl/Announcer/AnnouncerPlugin.java:188-205 | the fields become what Load reads from the file, the failure is Load's, and the timer keeps its period |
| Plugin.AnnouncerPlugin.Announce | src/main/java/at/co/hohl/Announcer/AnnouncerPlugin.java:142-168 | the loop over the pieces produces the effects of AnnounceEffects, in order |
| Plugin.AnnouncerPlugin.SendToReceivers | src/main/java/at/co/hohl/Announcer/AnnouncerPlugin.java:160-164 | the loop over online players sends the text to exactly the receivers, in order |
| Plugin.AnnouncerPlugin.AnnounceIndex | src/main/java/at/co/hohl/Announcer/AnnouncerPlugin.java:133-135 | in range it announces line index-1. Otherwise List.get throws |
| Plugin.AnnouncerPlugin.AnnounceNext | src/main/java/at/co/hohl/Announcer/AnnouncerPlugin.java:124-135 | one run of the thread: nothing, the division by zero, the announcement of the picked line, or List.get's exception when the picked index is outside the list |
| Commands.JoinWordsAppend | src/main/java/at/co/hohl/Announcer/AnnouncerCommandExecutor.java:173-176 | each loop step appends the word and one space |
| Commands.JoinWordsSplit | src/main/java/at/co/hohl/Announcer/AnnouncerCommandExecutor.java:172-177 | the stored message cut at its spaces gives back the words and a final empty piece |
| Commands.Entries | src/main/java/at/co/hohl/Announcer/AnnouncerCommandExecutor.java:254-257 | one line per index lo..hi, in order, each the index and its expanded message |
| Commands.PageStart | src/main/java/at/co/hohl/Announcer/AnnouncerCommandExecutor.java:251 | the intended entries before the page: never negative, (page-1)*7 for pages from 1 |
| Commands.PageStartAsWritten | src/main/java/at/co/hohl/Announcer/AnnouncerCommandExecutor.java:251 | `Math.abs(page - 1) * 7` in int arithmetic is an int |
| Commands.PageStop | src/main/java/at/co/hohl/Announcer/AnnouncerCommandExecutor.java:252 | the intended last index of the page: at most the size and never positive for pages up to 0 |
| Commands.PageStopAsWritten | src/main/java/at/co/hohl/Announcer/AnnouncerCommandExecutor.java:252 | `Math.min(page * 7, size)` in int arithmetic: at most the size, and the size or the wrapped product |
| Commands.PageFirst | src/main/java/at/co/hohl/Announcer/AnnouncerCommandExecutor.java:254 | the intended first listed index is at least 1 |
| Commands.PageFirstAsWritten | src/main/java/at/co/hohl/Announcer/AnnouncerCommandExecutor.java:254 | `indexStart + 1` in int arithmetic: an int, one past the start whenever the start is below Integer.MAX_VALUE |
| Commands.ListAsWritten | src/main/java/at/co/hohl/Announcer/AnnouncerCommandExecutor.java:251-257 | the loop throws exactly when its first index is below 1 and not past the stop |
| Commands.CaseInsensitive | src/main/java/at/co/hohl/Announcer/AnnouncerCommandExecutor.java:59-80 | command lines whose verbs fold alike are decided alike |
| Commands.FoldedVerb | src/main/java/at/co/hohl/Announcer/AnnouncerCommandExecutor.java:59-80 | a command is decided as the one with its verb in lower case |
| Commands.NoArgumentsShowVersion | src/main/java/at/co/hohl/Announcer/AnnouncerCommandExecutor.java:59-60 | no arguments show the version screen |
| Commands.NowIsBroadcast | src/main/java/at/co/hohl/Announcer/AnnouncerCommandExecutor.java:65-66 | `now` reaches the broadcast handler in the newer generation |
| Commands.OlderRefusesNowAndPrefix | src/at/co/hohl/Announcer/AnnouncerCommandExecutor.java:46-67 | the older generation refuses `now` and `prefix` |
| Commands.MissingPermissionRefused | src/main/java/at/co/hohl/Announcer/AnnouncerCommandExecutor.java:85-88 | a verb whose permission the sender lacks gets only the invalid-arguments reply and no action |
| Commands.UnknownVerbRefused | src/main/java/at/co/hohl/Announcer/AnnouncerCommandExecutor.java:81-88 | an unknown verb gets only the invalid-arguments reply and no action |
| Commands.IndexActionsInRange | src/main/java/at/co/hohl/Announcer/AnnouncerCommandExecutor.java:205 | every decided announce or remove is for an index in 1..size |
| Commands.DeleteIff | src/main/java/at/co/hohl/Announcer/AnnouncerCommandExecutor.java:278-305 | delete removes index i exactly when permitted, with two arguments, i parsed and in range. It replies with the removed message. Other counts do nothing |
| Commands.BroadcastIff | src/main/java/at/co/hohl/Announcer/AnnouncerCommandExecutor.java:199-226 | broadcast i announces exactly a permitted in-range i. A bare broadcast runs the rotation exactly when permitted |
| Commands.AddJoinsWords | src/main/java/at/co/hohl/Announcer/AnnouncerCommandExecutor.java:169-188 | add stores the joined words and confirms. Without words it only asks for a message |
| Commands.FlagParsing | src/main/java/at/co/hohl/Announcer/AnnouncerCommandExecutor.java:383-411 | random and enable set their flag to b exactly for "true"/"false" in any case, and reject other words |
| Commands.EnableQueryReportsRandom | src/main/java/at/co/hohl/Announcer/AnnouncerCommandExecutor.java:435-440 | the enable query reports the random flag, which differs from the enabled flag whenever the two flags differ |
| Commands.ReloadHelpGap | src/main/java/at/co/hohl/Announcer/AnnouncerCommandExecutor.java:153-155 | reload runs for a moderator, whose help screen does not list it |
| Commands.PagedListing | src/main/java/at/co/hohl/Announcer/AnnouncerCommandExecutor.java:251-257 | the intended page p lists indices \|p-1\|*7+1 onward, not past p*7 or the size, each with its expanded message |
| Commands.EmptyPages | src/main/java/at/co/hohl/Announcer/AnnouncerCommandExecutor.java:251-257 | the intended pages at or below 0, and past the end, list nothing |
| Commands.PagesTile | src/main/java/at/co/hohl/Announcer/AnnouncerCommandExecutor.java:251-257 | the intended pages 1..p listed one after another give entries 1..min(7p, size) with nothing lost or repeated |
| Commands.EntriesSplit | src/main/java/at/co/hohl/Announcer/AnnouncerCommandExecutor.java:254-257 | a range of entries is its two halves, one after the other |
| Commands.PageCountOverstates | src/main/java/at/co/hohl/Announcer/AnnouncerCommandExecutor.java:248-249 | when the size is a multiple of 7, the header's last page lists nothing |
| Commands.UnparseablePageListsFirst | src/main/java/at/co/hohl/Announcer/AnnouncerCommandExecutor.java:240-249 | an unparseable page is reported, then page 1 is listed anyway |
| Commands.UnpagedListing | src/at/co/hohl/Announcer/AnnouncerCommandExecutor.java:223-240 | the older list shows every index 1..size and refuses an extra argument |
| Commands.PagingAsWrittenAgrees | src/main/java/at/co/hohl/Announcer/AnnouncerCommandExecutor.java:251-256 | for pages -306783377..306783378 the int arithmetic lists exactly the intended page |
| Commands.PagingOverflowThrows | src/main/java/at/co/hohl/Announcer/AnnouncerCommandExecutor.java:251-256 | page 306783380 wraps the start negative, and the loop throws where the intended page is empty |
| Commands.PagingOverflowWraps | src/main/java/at/co/hohl/Announcer/AnnouncerCommandExecutor.java:251-256 | page 613566758 lists the seven entries 4..10 where the intended page is empty |
| Commands.ListedPageInRange | src/main/java/at/co/hohl/Announcer/AnnouncerCommandExecutor.java:237-257 | for pages -306783377..306783378 `list <page>` replies the header and then exactly the intended page |
| Commands.ListCommandOverflowThrows | src/main/java/at/co/hohl/Announcer/AnnouncerCommandExecutor.java:237-257 | `list 306783380` sends the header and then throws from getAnnouncement |
| Executor.BuildMessage | src/main/java/at/co/hohl/Announcer/AnnouncerCommandExecutor.java:172-176 | the StringBuilder loop yields JoinWords of the arguments after the verb |
| Executor.ListLines | src/main/java/at/co/hohl/Announcer/AnnouncerCommandExecutor.java:254-257 | the list loop yields exactly Entries(lo, hi) |
| Executor.ListPage | src/main/java/at/co/hohl/Announcer/AnnouncerCommandExecutor.java:251-257 | the int page bounds and the loop yield ListAsWritten: the entries, or None when getAnnouncement throws |
| Executor.AnnouncerCommandExecutor.constructor | src/main/java/at/co/hohl/Announcer/AnnouncerCommandExecutor.java:43-45 | the executor holds its plugin |
| Executor.AnnouncerCommandExecutor.OnAddCommand | src/main/java/at/co/hohl/Announcer/AnnouncerCommandExecutor.java:169-188 | onAddCommand decides as OnAdd |
| Executor.AnnouncerCommandExecutor.OnPrefixCommand | src/main/java/at/co/hohl/Announcer/AnnouncerCommandExecutor.java:352-372 | onPrefixCommand decides as OnPrefix |
| Executor.AnnouncerCommandExecutor.OnListPagedCommand | src/main/java/at/co/hohl/Announcer/AnnouncerCommandExecutor.java:237-267 | the newer onListCommand decides as OnListPaged, including the exception after the header |
| Executor.AnnouncerCommandExecutor.OnListAllCommand | src/at/co/hohl/Announcer/AnnouncerCommandExecutor.java:223-240 | the older onListCommand decides as OnListAll |
| Executor.AnnouncerCommandExecutor.Dispatch | src/main/java/at/co/hohl/Announcer/AnnouncerCommandExecutor.java:59-83 | the chain of verbs reaches the handler Route names |
| Executor.AnnouncerCommandExecutor.Store | src/main/java/at/co/hohl/Announcer/AnnouncerCommandExecutor.java:316-341 | a storing action changes its field as Next says, saves, and reschedules only for a new interval |
| Executor.AnnouncerCommandExecutor.Reload | src/main/java/at/co/hohl/Announcer/AnnouncerCommandExecutor.java:461-473 | the reload loads the file, and an unknown colour escapes with its name |
| Executor.AnnouncerCommandExecutor.Announce | src/main/java/at/co/hohl/Announcer/AnnouncerCommandExecutor.java:199-226 | announce(i) and announce() have the effects and completion of Effects and Completes |
| Executor.AnnouncerCommandExecutor.Rotate | src/main/java/at/co/hohl/Announcer/AnnouncerCommandExecutor.java:216-217 | a bare broadcast runs the thread once: its index moves as Tick says, with the effects and completion of Effects and Completes, which include the IndexOutOfBoundsException of a negative pick |
| Executor.AnnouncerCommandExecutor.Perform | src/main/java/at/co/hohl/Announcer/AnnouncerCommandExecutor.java:199-473 | the action is carried out: fields as Next, write-through on saves, the file on reload, task period, rotation, effects and completion |
| Executor.AnnouncerCommandExecutor.OnCommand | src/main/java/at/co/hohl/Announcer/AnnouncerCommandExecutor.java:56-91 | the state, effects and completion follow Decide's action. A storing command writes through, so the file equals the configuration in memory and records the fields. A reload takes the file. Every other command leaves the configuration and the file alone. The replies are Decide's unless an exception escaped; a list page that throws has already sent its header |

## Left out

- Host calls are effects or parameters, not calls:
  - the server, scheduler, logger and command registration;
  - `CommandSender`/`Player` messaging;
  - `Permission.getHandler` and the older permissions plugin.
- The texts of the version and help screens are not modelled; replies are symbolic constructors. The help screen is modelled as its list of topics.
- YAML parsing and file I/O are left out. The configuration is a flat map from dotted keys to typed values, and the file is a ghost field equal to the document last saved or read.
- The embedded default `config.yml` is not part of this model. Neither are `onDisable` and `getLogger`.
- The `ChatColor` enumeration's actual constants are not fixed: the palette is a parameter. Idempotence and code-replacement lemmas state the assumptions they need about it.
- `String.replaceAll` is modelled for literal patterns only: the patterns `&` plus hex digits contain no metacharacters. `$` and `\` in a marker are not interpreted.
- `equalsIgnoreCase` is modelled against lower-case ASCII words only: A-Z fold, plus U+0130, U+0131, U+017F and U+212A. Other Unicode case pairs do not matter for ASCII words.
- Concurrency is left out. The repeating task and command handling run on the server's main thread, and the model treats each call as atomic.
- A `null` tag (a YAML `~`) is not modelled: the tag is always a string.
- Plugin.AnnouncerPlugin.constructor: takes the settings that `onEnable`'s `reloadConfiguration` reads as a parameter, so a failing load at start-up is not modelled.
- Executor.AnnouncerCommandExecutor.Perform: `prefix` with words calls `setAnnouncementPrefix`, which no modelled plugin file defines. The action changes no modelled state, and the prefix query's text is not modelled.
- Executor.AnnouncerCommandExecutor.Store: the interval handler's `catch (ArithmeticException)` is not modelled. `setAnnouncementInterval` never throws in the model: the period is `interval * 10` in exact arithmetic, which cannot overflow a long for an int interval.
- Config.GetInt: a stored number outside the int range is narrowed by wrap-around. Floating-point values are not modelled.
- Commands.PageStart: states the intended, exact `Math.abs(page - 1) * 7`. The int arithmetic of line 251 agrees only for pages -306783377..306783378 (Commands.PagingAsWrittenAgrees); `list` itself uses Commands.PageStartAsWritten.
- Commands.PageStop: states the intended, exact `Math.min(page * 7, size)`. Line 252 agrees only for pages -306783377..306783378; `list` itself uses Commands.PageStopAsWritten.
- Commands.PageFirst: at least 1 only in exact arithmetic. Line 254's `indexStart + 1` can be -2147483642 (Commands.PagingOverflowThrows); `list` itself uses Commands.PageFirstAsWritten.
- Commands.PagedListing: describes the intended page. The source lists it only for pages -306783377..306783378 (Commands.ListedPageInRange); page 613566758 lists 4..10 instead (Commands.PagingOverflowWraps).
- Commands.EmptyPages: describes the intended page. Outside -306783377..306783378 the source can list entries (page 613566758) or throw (page 306783380).
- Commands.PagesTile: describes the intended pages. In the source, page p throws for p = 306783380, so the tiling holds only for pages up to 306783378.
- Rotation.SequentialCycle: assumes the store has at most Integer.MAX_VALUE lines, as a Java list does. So do Rotation.FirstTriggersFromStart and Rotation.TwoCycles.
- Executor.ListLines: the loop's `++index` is exact. It could only wrap for a store of Integer.MAX_VALUE lines.
- Config.GetString: a non-string value is rendered by a simplified `toString`: decimal digits, `true`/`false`, or `[a, b]` for a list.

## Findings

| source | as written | input that shows it | evidently intended | confidence | as-written member | corrected member |
|---|---|---|---|---|---|---|
| src/at/co/hohl/Announcer/AnnouncerThread.java:41 | `Math.abs(nextInt()) % size` is negative when the draw is Integer.MIN_VALUE, and the guard `lastAnnouncement < size` lets it through to `announce(-1)` | draw Integer.MIN_VALUE with 3 announcements gives index -2 | a random index in 0..size-1 | not executed | Rotation.RandomIndexAsWrittenOutOfRange | Rotation.RandomIndex |
| src/main/java/at/co/hohl/Announcer/AnnouncerCommandExecutor.java:251-256 | `Math.abs(page - 1) * 7` and `page * 7` overflow int, so the loop runs from a negative index | `list 306783380` starts the loop at index -2147483642, and getAnnouncement throws | a page beyond the data lists nothing | not executed | Commands.PagingOverflowThrows | Commands.PagedListing |
| src/main/java/at/co/hohl/Announcer/AnnouncerCommandExecutor.java:251-256 | the same overflow can wrap both bounds back into the data | `list 613566758` with 10 announcements lists entries 4..10 | a page beyond the data lists nothing | not executed | Commands.PagingOverflowWraps | Commands.PagedListing |
