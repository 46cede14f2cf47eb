/**
 * AnnouncerPlugin.announce(String): a line is cut at every "&n"; a piece
 * starting with '/' is run as a server command, every other piece is framed
 * with the tag and the colours and sent to everybody or to the players that
 * may receive announcements. The host calls become a list of effects.
 */
module Delivery {
  import opened JavaLang
  import opened ChatColors
  import opened Config

  /** An online player, with whether it holds the receiver permission. */
  datatype Player = Player(name: string, receiver: bool)

  /** Who runs a dispatched command: the console (newer) or the plugin itself (older). */
  datatype Sender = Console | PluginSelf

  datatype Effect =
    | Dispatch(sender: Sender, command: string)
    | Broadcast(text: string)
    | SendTo(player: Player, text: string)

  const LineBreak: string := "&n"

  predicate IsCommand(piece: string) {
    |piece| > 0 && piece[0] == '/'
  }

  function DispatchSender(gen: Generation): Sender {
    if gen == Newer then Console else PluginSelf
  }

  /** The announcement text of one piece, before colour expansion. */
  function Template(tag: string, tagColor: ChatColor, messageColor: ChatColor, piece: string): (r: string)
    ensures |tag| > 0 ==> r == tagColor.marker + "[" + tag + "] " + messageColor.marker + piece
    ensures |tag| == 0 ==> r == tagColor.marker + " " + messageColor.marker + piece
  {
    tagColor.marker + (if |tag| > 0 then "[" + tag + "] " else " ") + messageColor.marker + piece
  }

  /** The online players holding the receiver permission, in iteration order. */
  function Receivers(players: seq<Player>): (r: seq<Player>)
    ensures |r| <= |players|
  {
    if players == [] then []
    else
      var last := players[|players| - 1];
      Receivers(players[..|players| - 1]) + (if last.receiver then [last] else [])
  }

  /** One `SendTo` per receiver, in order. */
  function SendToAll(receivers: seq<Player>, text: string): (r: seq<Effect>)
    ensures |r| == |receivers|
  {
    if receivers == [] then []
    else SendToAll(receivers[..|receivers| - 1], text) + [SendTo(receivers[|receivers| - 1], text)]
  }

  /** The i-th message goes to the i-th receiver, and every message carries the same text. */
  lemma {:induction false} SendToAllElements(receivers: seq<Player>, text: string)
    ensures forall i :: 0 <= i < |receivers| ==> SendToAll(receivers, text)[i] == SendTo(receivers[i], text)
    decreases |receivers|
  {
    if receivers != [] {
      var n := |receivers| - 1;
      SendToAllElements(receivers[..n], text);
    }
  }

  /**
   * The effects of one piece. The newer generation expands the colour codes
   * once for both kinds of delivery; the older one expands them only for the
   * broadcast and sends the raw text to the filtered players.
   */
  function PieceEffects(gen: Generation, palette: seq<ChatColor>, s: Settings, piece: string,
                        players: seq<Player>): seq<Effect>
  {
    if IsCommand(piece) then [Dispatch(DispatchSender(gen), piece[1..])]
    else
      var text := Template(s.tag, s.tagColor, s.messageColor, piece);
      if s.sendToAll then [Broadcast(Expand(palette, text))]
      else if gen == Newer then SendToAll(Receivers(players), Expand(palette, text))
      else SendToAll(Receivers(players), text)
  }

  /** The effects of the pieces, one piece after the other. */
  function PiecesEffects(gen: Generation, palette: seq<ChatColor>, s: Settings, pieces: seq<string>,
                         players: seq<Player>): seq<Effect>
  {
    if pieces == [] then []
    else
      var init := PiecesEffects(gen, palette, s, pieces[..|pieces| - 1], players);
      init + PieceEffects(gen, palette, s, pieces[|pieces| - 1], players)
  }

  /** announce(line): the effects of the pieces of the line, in order. */
  function AnnounceEffects(gen: Generation, palette: seq<ChatColor>, s: Settings, line: string,
                           players: seq<Player>): seq<Effect>
  {
    PiecesEffects(gen, palette, s, Split(line, LineBreak), players)
  }

  // ---------------------------------------------------------------------------
  // Receivers
  // ---------------------------------------------------------------------------

  /** Exactly the online players with the receiver permission get the text. */
  lemma {:induction false} ReceiversExact(players: seq<Player>, p: Player)
    ensures p in Receivers(players) <==> p in players && p.receiver
    decreases |players|
  {
    if players != [] {
      var init := players[..|players| - 1];
      ReceiversExact(init, p);
      assert players == init + [players[|players| - 1]];
    }
  }

  /** Filtering keeps the iteration order: it distributes over concatenation. */
  lemma {:induction false} ReceiversConcat(a: seq<Player>, b: seq<Player>)
    ensures Receivers(a + b) == Receivers(a) + Receivers(b)
    decreases |b|
  {
    if b != [] {
      var n := |b| - 1;
      assert (a + b)[..|a + b| - 1] == a + b[..n];
      assert (a + b)[|a + b| - 1] == b[n];
      ReceiversConcat(a, b[..n]);
    } else {
      assert a + b == a;
    }
  }

  /** One more online player: the receivers grow by that player exactly when it holds the permission. */
  lemma ReceiversStep(players: seq<Player>, j: int)
    requires 0 <= j < |players|
    ensures players[j].receiver ==> Receivers(players[..j + 1]) == Receivers(players[..j]) + [players[j]]
    ensures !players[j].receiver ==> Receivers(players[..j + 1]) == Receivers(players[..j])
  {
    assert players[..j + 1][..j] == players[..j];
    assert players[..j + 1][j] == players[j];
    if !players[j].receiver {
      assert Receivers(players[..j]) + [] == Receivers(players[..j]);
    }
  }

  /** One more receiver: one more message, at the end. */
  lemma SendToAllStep(receivers: seq<Player>, p: Player, text: string)
    ensures SendToAll(receivers + [p], text) == SendToAll(receivers, text) + [SendTo(p, text)]
  {
    assert (receivers + [p])[..|receivers|] == receivers;
  }

  // ---------------------------------------------------------------------------
  // Pieces
  // ---------------------------------------------------------------------------

  /** A command piece is dispatched once, without its '/', and produces no text. */
  lemma CommandPiece(gen: Generation, palette: seq<ChatColor>, s: Settings, piece: string, players: seq<Player>)
    requires IsCommand(piece)
    ensures PieceEffects(gen, palette, s, piece, players) == [Dispatch(DispatchSender(gen), piece[1..])]
    ensures gen == Newer ==> DispatchSender(gen) == Console
    ensures gen == Older ==> DispatchSender(gen) == PluginSelf
  {
  }

  /**
   * A text piece sent to everybody is one broadcast of the expanded
   * template, in both generations.
   */
  lemma BroadcastPiece(gen: Generation, palette: seq<ChatColor>, s: Settings, piece: string, players: seq<Player>)
    requires !IsCommand(piece) && s.sendToAll
    ensures PieceEffects(gen, palette, s, piece, players)
         == [Broadcast(Expand(palette, Template(s.tag, s.tagColor, s.messageColor, piece)))]
  {
  }

  /**
   * A filtered text piece goes to each receiver in turn: expanded in the
   * newer generation, unexpanded in the older one.
   */
  lemma FilteredPiece(gen: Generation, palette: seq<ChatColor>, s: Settings, piece: string, players: seq<Player>)
    requires !IsCommand(piece) && !s.sendToAll
    ensures var e := PieceEffects(gen, palette, s, piece, players);
            var text := Template(s.tag, s.tagColor, s.messageColor, piece);
            && |e| == |Receivers(players)|
            && forall i :: 0 <= i < |e| ==>
                 e[i] == SendTo(Receivers(players)[i], if gen == Newer then Expand(palette, text) else text)
  {
    var text := Template(s.tag, s.tagColor, s.messageColor, piece);
    SendToAllElements(Receivers(players), if gen == Newer then Expand(palette, text) else text);
  }

  /** Pieces are handled in order: the effects of a concatenation are concatenated. */
  lemma {:induction false} PiecesConcat(gen: Generation, palette: seq<ChatColor>, s: Settings,
                                        a: seq<string>, b: seq<string>, players: seq<Player>)
    ensures PiecesEffects(gen, palette, s, a + b, players)
         == PiecesEffects(gen, palette, s, a, players) + PiecesEffects(gen, palette, s, b, players)
    decreases |b|
  {
    if b != [] {
      var n := |b| - 1;
      assert (a + b)[..|a + b| - 1] == a + b[..n];
      assert (a + b)[|a + b| - 1] == b[n];
      PiecesConcat(gen, palette, s, a, b[..n], players);
    } else {
      assert a + b == a;
    }
  }

  /** The effects of a single piece. */
  lemma PiecesSingle(gen: Generation, palette: seq<ChatColor>, s: Settings, piece: string, players: seq<Player>)
    ensures PiecesEffects(gen, palette, s, [piece], players) == PieceEffects(gen, palette, s, piece, players)
  {
    assert [piece][..0] == [];
  }

  /**
   * With a tag and markers free of `&`, expansion touches only the piece:
   * the delivered text is the frame around the expanded piece.
   */
  lemma ExpandedTemplate(palette: seq<ChatColor>, tag: string, tagColor: ChatColor, messageColor: ChatColor,
                         piece: string)
    requires '&' !in tag && '&' !in tagColor.marker && '&' !in messageColor.marker
    ensures Expand(palette, Template(tag, tagColor, messageColor, piece))
         == Template(tag, tagColor, messageColor, Expand(palette, piece))
  {
    var frame := tagColor.marker + (if |tag| > 0 then "[" + tag + "] " else " ") + messageColor.marker;
    assert '&' !in frame;
    assert Template(tag, tagColor, messageColor, piece) == frame + piece;
    ExpandPrefix(palette, frame, piece);
  }

  // ---------------------------------------------------------------------------
  // Lines
  // ---------------------------------------------------------------------------

  /** A piece free of the marker dispatches only commands free of it. */
  lemma PieceDispatchFree(gen: Generation, palette: seq<ChatColor>, s: Settings, piece: string,
                          players: seq<Player>)
    requires Free(piece, LineBreak)
    ensures forall e :: e in PieceEffects(gen, palette, s, piece, players) && e.Dispatch? ==>
              Free(e.command, LineBreak)
  {
    if IsCommand(piece) {
      FreeSuffix(piece, LineBreak, 1);
    } else {
      var text := Template(s.tag, s.tagColor, s.messageColor, piece);
      SendToAllElements(Receivers(players), text);
      SendToAllElements(Receivers(players), Expand(palette, text));
    }
  }

  /** No dispatched command contains the line-break marker. */
  lemma {:induction false} PiecesDispatchFree(gen: Generation, palette: seq<ChatColor>, s: Settings,
                                              pieces: seq<string>, players: seq<Player>)
    requires forall k :: 0 <= k < |pieces| ==> Free(pieces[k], LineBreak)
    ensures forall e :: e in PiecesEffects(gen, palette, s, pieces, players) && e.Dispatch? ==>
              Free(e.command, LineBreak)
    decreases |pieces|
  {
    if pieces != [] {
      var n := |pieces| - 1;
      PiecesDispatchFree(gen, palette, s, pieces[..n], players);
      PieceDispatchFree(gen, palette, s, pieces[n], players);
      var init := PiecesEffects(gen, palette, s, pieces[..n], players);
      var last := PieceEffects(gen, palette, s, pieces[n], players);
      assert PiecesEffects(gen, palette, s, pieces, players) == init + last;
    }
  }

  lemma AnnounceDispatchFree(gen: Generation, palette: seq<ChatColor>, s: Settings, line: string,
                             players: seq<Player>)
    ensures forall e :: e in AnnounceEffects(gen, palette, s, line, players) && e.Dispatch? ==>
              Free(e.command, LineBreak)
  {
    SplitPiecesFree(line, LineBreak);
    PiecesDispatchFree(gen, palette, s, Split(line, LineBreak), players);
  }

  /** A line without the marker is a single piece. */
  lemma SinglePieceLine(gen: Generation, palette: seq<ChatColor>, s: Settings, line: string, players: seq<Player>)
    requires Free(line, LineBreak)
    ensures AnnounceEffects(gen, palette, s, line, players) == PieceEffects(gen, palette, s, line, players)
  {
    SplitAllFree(line, LineBreak);
    PiecesSingle(gen, palette, s, line, players);
  }

  /** The empty line is one empty text piece: the bare frame is still sent. */
  lemma EmptyLineSendsFrame(gen: Generation, palette: seq<ChatColor>, s: Settings, players: seq<Player>)
    requires s.sendToAll
    ensures AnnounceEffects(gen, palette, s, "", players)
         == [Broadcast(Expand(palette, Template(s.tag, s.tagColor, s.messageColor, "")))]
  {
    SinglePieceLine(gen, palette, s, "", players);
  }

  /** A line that is only the marker has no pieces at all and does nothing. */
  lemma MarkerOnlyLineIsSilent(gen: Generation, palette: seq<ChatColor>, s: Settings, players: seq<Player>)
    ensures AnnounceEffects(gen, palette, s, LineBreak, players) == []
  {
    assert StartsWith(LineBreak, LineBreak);
    assert LineBreak[|LineBreak|..] == "";
    assert SplitAll(LineBreak, LineBreak) == ["", ""];
    assert Split(LineBreak, LineBreak) == [];
  }

  /** A trailing marker adds nothing: "x&n" announces what "x" announces. */
  lemma TrailingMarkerDropped(gen: Generation, palette: seq<ChatColor>, s: Settings, piece: string,
                              players: seq<Player>)
    requires Free(piece, LineBreak) && piece != ""
    ensures AnnounceEffects(gen, palette, s, piece + LineBreak, players)
         == AnnounceEffects(gen, palette, s, piece, players)
  {
    SplitAllSeparated(piece);
    assert SplitAll(piece + LineBreak, LineBreak) == [piece, ""];
    assert Split(piece + LineBreak, LineBreak) == [piece] by {
      assert DropTrailingEmpty([piece, ""]) == DropTrailingEmpty([piece]);
    }
    SplitAllFree(piece, LineBreak);
  }

  /**
   * A command followed by a text: the command is dispatched first, then the
   * text is delivered.
   */
  lemma CommandThenText(gen: Generation, palette: seq<ChatColor>, s: Settings, command: string, text: string,
                        players: seq<Player>)
    requires Free(command, LineBreak) && Free(text, LineBreak) && text != ""
    requires IsCommand(command)
    ensures AnnounceEffects(gen, palette, s, command + LineBreak + text, players)
         == [Dispatch(DispatchSender(gen), command[1..])] + PieceEffects(gen, palette, s, text, players)
  {
    SplitAllJoined(command, text);
    var pieces := [command, text];
    assert Split(command + LineBreak + text, LineBreak) == pieces;
    PiecesConcat(gen, palette, s, [command], [text], players);
    assert [command] + [text] == pieces;
    PiecesSingle(gen, palette, s, command, players);
    PiecesSingle(gen, palette, s, text, players);
  }

  // ---------------------------------------------------------------------------
  // Splitting at a separator between marker-free pieces
  // ---------------------------------------------------------------------------

  lemma SplitAllSeparated(a: string)
    requires Free(a, LineBreak)
    ensures SplitAll(a + LineBreak, LineBreak) == [a, ""]
  {
    SplitAllJoined(a, "");
    assert a + LineBreak + "" == a + LineBreak;
  }

  /** Splitting a + "&n" + b, with neither holding the marker, gives back [a, b]. */
  lemma {:induction false} SplitAllJoined(a: string, b: string)
    requires Free(a, LineBreak) && Free(b, LineBreak)
    ensures SplitAll(a + LineBreak + b, LineBreak) == [a, b]
    decreases |a|
  {
    var s := a + LineBreak + b;
    if a == [] {
      SplitAllLeading(b);
    } else {
      NotAtStart(a, b);
      assert Free(a[1..], LineBreak);
      assert s[1..] == a[1..] + LineBreak + b;
      SplitAllJoined(a[1..], b);
      var tail := SplitAll(s[1..], LineBreak);
      assert tail[0] == a[1..] && tail[1..] == [b];
      SplitAllStep(s, LineBreak);
      assert s[0] == a[0] && [a[0]] + a[1..] == a;
    }
  }

  lemma SplitAllLeading(b: string)
    requires Free(b, LineBreak)
    ensures SplitAll([] + LineBreak + b, LineBreak) == ["", b]
  {
    var s := [] + LineBreak + b;
    assert StartsWith(s, LineBreak);
    assert s[|LineBreak|..] == b;
    SplitAllFree(b, LineBreak);
  }

  /** A nonempty prefix without the marker keeps the marker after it from matching at the start. */
  lemma NotAtStart(a: string, b: string)
    requires a != [] && Free(a, LineBreak)
    ensures !StartsWith(a + LineBreak + b, LineBreak)
  {
    var s := a + LineBreak + b;
    assert !StartsWith(a, LineBreak);
    if |a| >= 2 {
      assert s[..2] == a[..2];
    } else {
      assert s[1] == '&';
    }
  }

}
