/**
 * The sketchpad's state and its event handlers: the drawing commands (objects
 * whose points the held moves extend in place), the two history stacks, the
 * two tool slots, the preview under the cursor and the command left open by
 * a press. Each mouse and button handler is a method of `Editor`; `Redraw`
 * and `Command.Display` return the draw operations they would issue.
 */
module Sketchpad {
  import opened Wrappers
  import opened Shapes
  import Render
  import UndoRedo

  /** The notification names the handlers publish. */
  const DrawingChanged := "drawing-changed"
  const ToolMoved := "tool-moved"
  const ToolChanged := "tool-changed"
  /** What the press handler publishes: "drawing-changed" with its last letter doubled. */
  const PressNotice := "drawing-changedd"

  /** The `buttons` mask of a mouse move with the left button, and only it, held. */
  const LeftButton := 1

  datatype Listener = RedrawListener | ChangeToolListener

  /** The subscriptions on the bus: a redraw on a drawing change or a tool move, the highlight on a tool change. */
  function Subscribers(name: string): (r: seq<Listener>)
    ensures |r| <= 1
    ensures RedrawListener in r <==> name == DrawingChanged || name == ToolMoved
    ensures ChangeToolListener in r <==> name == ToolChanged
  {
    if name == DrawingChanged || name == ToolMoved then [RedrawListener]
    else if name == ToolChanged then [ChangeToolListener]
    else []
  }

  /** Nothing listens to what a press publishes, so a press by itself does not redraw. */
  lemma PressIsNotRedrawn()
    ensures Subscribers(PressNotice) == []
    ensures Subscribers(DrawingChanged) == [RedrawListener]
  {
  }

  /** A line command or a sticker command. */
  class Command {
    const kind: Kind
    var points: Path

    constructor (kind: Kind, p: Point)
      ensures this.kind == kind && points == [p]
    {
      this.kind := kind;
      points := [p];
    }

    function Value(): CommandValue
      reads this
    {
      CommandValue(kind, points)
    }

    /** `drag`: the newest pointer position is appended to the points. */
    method Drag(p: Point)
      modifies this
      ensures points == old(points) + [p]
    {
      points := points + [p];
    }

    /** `display`: the draw operations of this command, as `Render.StrokeOps` describes them. */
    method Display() returns (ops: seq<Render.DrawOp>)
      ensures ops == Render.StrokeOps(Value())
    {
      match kind
      case Line(m) =>
        ops := [Render.SetLineWidth(m.lineWidth), Render.BeginPath, Render.MoveTo(points[Start])];
        ghost var prefix := ops;
        for i := 0 to |points|
          invariant ops == prefix + Render.LineTos(points[..i])
        {
          assert points[..i + 1][..i] == points[..i];
          ops := ops + [Render.LineTo(points[i])];
        }
        assert points[..|points|] == points;
        ops := ops + [Render.StrokePath];
      case Stamp(st) =>
        var last := points[|points| - 1];
        ops := [Render.SetFontSize(st.size * Render.Magnitude), Render.FillText(st.name, last)];
    }
  }

  /** The values of a list of commands, as they are now. */
  ghost function Values(cs: seq<Command>): (r: seq<CommandValue>)
    reads cs
    ensures |r| == |cs|
  {
    if cs == [] then [] else Values(cs[..|cs| - 1]) + [cs[|cs| - 1].Value()]
  }

  lemma {:induction false} ValuesAt(cs: seq<Command>, i: nat)
    requires i < |cs|
    ensures Values(cs)[i] == cs[i].Value()
  {
    var n := |cs|;
    if i < n - 1 {
      assert cs[..n - 1][i] == cs[i];
      ValuesAt(cs[..n - 1], i);
    }
  }

  lemma TakeSnoc<T>(s: seq<T>, i: nat)
    requires i < |s|
    ensures s[..i + 1] == s[..i] + [s[i]]
  {
  }

  /** Every command's `display`, in the order of the list. */
  method Replay(cs: seq<Command>) returns (ops: seq<Render.DrawOp>)
    ensures ops == Render.StrokesOps(Values(cs))
  {
    ghost var vs := Values(cs);
    ops := [];
    for i := 0 to |cs|
      invariant ops == Render.StrokesOps(vs[..i])
    {
      ValuesAt(cs, i);
      var drawn := cs[i].Display();
      TakeSnoc(vs, i);
      Render.StrokesOpsSnoc(vs[..i], vs[i]);
      ops := ops + drawn;
    }
    assert vs[..|cs|] == vs;
  }

  class Editor {
    var currentMarker: Option<Marker>
    var currentSticker: Option<Sticker>
    var commands: seq<Command>
    var redoCommands: seq<Command>
    var cursorCommand: Option<Preview>
    var currentLineCommand: Command?
    var stickerButtons: seq<Sticker>
    /** The notifications published so far, oldest first. */
    var notices: seq<string>

    function History(): UndoRedo.Stacks<Command>
      reads this
    {
      UndoRedo.Stacks(commands, redoCommands)
    }

    /** Exactly one of the two tool slots holds a tool. */
    ghost predicate OneTool()
      reads this
    {
      currentMarker.Some? != currentSticker.Some?
    }

    /** The object invariant: one tool, and no command object twice in the history. */
    ghost predicate Valid()
      reads this
    {
      OneTool() && UndoRedo.Distinct(UndoRedo.Timeline(History()))
    }

    /** The kinds of the commands a press creates: one per filled tool slot, the marker's first. */
    function PressedKinds(): (r: seq<Kind>)
      reads this
      ensures OneTool() ==> |r| == 1
      ensures currentMarker.Some? ==> |r| > 0 && r[0] == Line(currentMarker.value)
      ensures currentSticker.Some? ==> |r| > 0 && r[|r| - 1] == Stamp(currentSticker.value)
    {
      (if currentMarker.Some? then [Line(currentMarker.value)] else [])
      + (if currentSticker.Some? then [Stamp(currentSticker.value)] else [])
    }

    /** The preview after the pointer shows up at `p`: the selected tool's glyph there, or the old one with no tool. */
    function Hovered(p: Point): (r: Option<Preview>)
      reads this
      ensures OneTool() ==> r.Some? && r.value.x == p.x && r.value.y == p.y
      ensures currentMarker.Some? ==> r == Some(LinePreview(p.x, p.y, currentMarker.value))
      ensures currentMarker.None? && currentSticker.Some? ==> r == Some(StickerPreview(p.x, p.y, currentSticker.value))
      ensures currentMarker.None? && currentSticker.None? ==> r == cursorCommand
    {
      if currentMarker.Some? then Some(LinePreview(p.x, p.y, currentMarker.value))
      else if currentSticker.Some? then Some(StickerPreview(p.x, p.y, currentSticker.value))
      else cursorCommand
    }

    twostate predicate ToolsUnchanged()
      reads this
    {
      currentMarker == old(currentMarker) && currentSticker == old(currentSticker)
      && stickerButtons == old(stickerButtons)
    }

    twostate predicate DrawingUnchanged()
      reads this
    {
      History() == old(History()) && cursorCommand == old(cursorCommand)
      && currentLineCommand == old(currentLineCommand)
    }

    /** The state when the page has loaded: the thin marker, no drawing, the three default stickers. */
    constructor ()
      ensures Valid()
      ensures currentMarker == Some(ThinMarker) && currentSticker == None
      ensures commands == [] && redoCommands == [] && cursorCommand == None && currentLineCommand == null
      ensures stickerButtons == DefaultStickers && notices == []
    {
      currentMarker := Some(ThinMarker);
      currentSticker := None;
      commands := [];
      redoCommands := [];
      stickerButtons := DefaultStickers;
      cursorCommand := None;
      currentLineCommand := null;
      notices := [];
    }

    /** The pointer leaves the canvas: the preview goes away. */
    method MouseOut()
      requires Valid()
      modifies this
      ensures Valid() && ToolsUnchanged()
      ensures cursorCommand == None
      ensures History() == old(History()) && currentLineCommand == old(currentLineCommand)
      ensures notices == old(notices) + [ToolMoved]
    {
      cursorCommand := None;
      notices := notices + [ToolMoved];
    }

    /** The pointer enters the canvas: the preview of the selected tool appears under it. */
    method MouseEnter(p: Point)
      requires Valid()
      modifies this
      ensures Valid() && ToolsUnchanged()
      ensures cursorCommand == old(Hovered(p))
      ensures History() == old(History()) && currentLineCommand == old(currentLineCommand)
      ensures notices == old(notices) + (if currentMarker.Some? || currentSticker.Some? then [ToolMoved] else [])
    {
      if currentMarker.Some? {
        cursorCommand := Some(LinePreview(p.x, p.y, currentMarker.value));
        notices := notices + [ToolMoved];
      } else if currentSticker.Some? {
        cursorCommand := Some(StickerPreview(p.x, p.y, currentSticker.value));
        notices := notices + [ToolMoved];
      }
    }

    /**
     * The pointer moves over the canvas. The preview follows it; with the left
     * button held the preview is dropped and the open command, which may be
     * the last entry of `commands`, gets the new point.
     */
    method MouseMove(p: Point, buttons: int)
      requires Valid()
      modifies this, currentLineCommand
      ensures Valid() && ToolsUnchanged()
      ensures History() == old(History()) && currentLineCommand == old(currentLineCommand)
      ensures cursorCommand == if buttons == LeftButton then None else old(Hovered(p))
      ensures notices == old(notices) + [ToolMoved] + (if buttons == LeftButton then [DrawingChanged] else [])
      ensures currentLineCommand != null ==>
        currentLineCommand.points == old(currentLineCommand.points) + (if buttons == LeftButton then [p] else [])
      ensures buttons == LeftButton && currentLineCommand != null
              && commands != [] && currentLineCommand == commands[|commands| - 1] ==>
        forall i | 0 <= i < |commands| - 1 :: commands[i].Value() == old(commands[i].Value())
    {
      if currentMarker.Some? {
        cursorCommand := Some(LinePreview(p.x, p.y, currentMarker.value));
      } else if currentSticker.Some? {
        cursorCommand := Some(StickerPreview(p.x, p.y, currentSticker.value));
      }
      notices := notices + [ToolMoved];

      if buttons == LeftButton {
        cursorCommand := None;
        // The source pushes onto the open command in both the marker and the
        // sticker branch, without checking that one is open, and throws when
        // none is; the model leaves the points alone instead.
        if (currentMarker.Some? || currentSticker.Some?) && currentLineCommand != null {
          currentLineCommand.Drag(p);
          if commands != [] && currentLineCommand == commands[|commands| - 1] {
            UndoRedo.DistinctDone(History());
            forall i | 0 <= i < |commands| - 1
              ensures commands[i].Value() == old(commands[i].Value())
            {
              assert commands[i] != commands[|commands| - 1];
            }
          }
        }
        notices := notices + [DrawingChanged];
      }
    }

    /**
     * A press on the canvas: the preview is dropped, a command with the press
     * point as its only point is created for each filled tool slot, appended
     * to `commands` and left open, and the redo stack is emptied.
     */
    method MouseDown(p: Point)
      modifies this
      ensures ToolsUnchanged()
      ensures cursorCommand == None
      ensures |old(commands)| <= |commands|
      ensures History() == UndoRedo.Begin(old(History()), commands[|old(commands)|..])
      ensures |commands| == |old(commands)| + |PressedKinds()|
      ensures forall i | |old(commands)| <= i < |commands| ::
        fresh(commands[i]) && commands[i].Value() == CommandValue(PressedKinds()[i - |old(commands)|], [p])
      ensures currentLineCommand == if PressedKinds() == [] then old(currentLineCommand) else commands[|commands| - 1]
      ensures notices == old(notices) + [PressNotice]
      ensures old(Valid()) ==> Valid() && |commands| == |old(commands)| + 1
    {
      ghost var before := History();
      cursorCommand := None;
      if currentMarker.Some? {
        var c := new Command(Line(currentMarker.value), p);
        currentLineCommand := c;
        commands := commands + [c];
      }
      if currentSticker.Some? {
        var c := new Command(Stamp(currentSticker.value), p);
        currentLineCommand := c;
        commands := commands + [c];
      }
      redoCommands := [];
      notices := notices + [PressNotice];

      if old(Valid()) {
        var c := commands[|commands| - 1];
        assert commands == before.done + [c];
        assert c !in before.done;
        UndoRedo.DistinctAfterBegin(before, c);
      }
    }

    /** Release on the canvas: the open command is closed; the history is left as it is. */
    method MouseUp()
      requires Valid()
      modifies this
      ensures Valid() && ToolsUnchanged()
      ensures currentLineCommand == null
      ensures History() == old(History()) && cursorCommand == old(cursorCommand)
      ensures notices == old(notices) + [DrawingChanged]
    {
      currentLineCommand := null;
      notices := notices + [DrawingChanged];
    }

    /** The "thick" button: the thick marker is selected and no sticker is. */
    method ChangeToThickMarker()
      modifies this
      ensures OneTool() && (old(Valid()) ==> Valid())
      ensures currentMarker == Some(ThickMarker) && currentSticker == None
      ensures stickerButtons == old(stickerButtons) && DrawingUnchanged()
      ensures notices == old(notices) + [ToolChanged]
    {
      currentMarker := Some(ThickMarker);
      currentSticker := None;
      notices := notices + [ToolChanged];
    }

    /** The "thin" button: the thin marker is selected and no sticker is. */
    method ChangeToThinMarker()
      modifies this
      ensures OneTool() && (old(Valid()) ==> Valid())
      ensures currentMarker == Some(ThinMarker) && currentSticker == None
      ensures stickerButtons == old(stickerButtons) && DrawingUnchanged()
      ensures notices == old(notices) + [ToolChanged]
    {
      currentMarker := Some(ThinMarker);
      currentSticker := None;
      notices := notices + [ToolChanged];
    }

    /** A sticker button: that sticker of the palette is selected and no marker is. */
    method ClickSticker(i: nat)
      requires i < |stickerButtons|
      modifies this
      ensures OneTool() && (old(Valid()) ==> Valid())
      ensures stickerButtons == old(stickerButtons) && DrawingUnchanged()
      ensures currentSticker == Some(stickerButtons[i]) && currentMarker == None
      ensures notices == old(notices) + [ToolChanged]
    {
      currentSticker := Some(stickerButtons[i]);
      currentMarker := None;
      notices := notices + [ToolChanged];
    }

    /** The "Custom Sticker" button, given the text the user entered: a new sticker at the end of the palette. */
    method AddCustomSticker(name: string)
      requires Valid()
      modifies this
      ensures Valid() && DrawingUnchanged()
      ensures stickerButtons == old(stickerButtons) + [Sticker(StickerSize, name)]
      ensures stickerButtons[|stickerButtons| - 1].name == name
      ensures currentMarker == old(currentMarker) && currentSticker == old(currentSticker)
      ensures notices == old(notices)
    {
      stickerButtons := stickerButtons + [Sticker(StickerSize, name)];
    }

    /** `redraw`: the draw operations of a full repaint, as `Render.Frame` describes them. */
    method Redraw() returns (ops: seq<Render.DrawOp>)
      ensures ops == Render.Frame(Values(commands), cursorCommand)
    {
      var replayed := Replay(commands);
      var preview := Render.CursorOps(cursorCommand);
      ops := [Render.ClearRect(Start, Start, Render.CanvasWidth, Render.CanvasHeight)] + replayed + preview;
    }

    /** The "clear" button: every done command is dropped; the redo stack is kept. */
    method Clear()
      requires Valid()
      modifies this
      ensures Valid() && ToolsUnchanged()
      ensures History() == UndoRedo.Clear(old(History()))
      ensures cursorCommand == old(cursorCommand) && currentLineCommand == old(currentLineCommand)
      ensures notices == old(notices) + [DrawingChanged]
    {
      UndoRedo.DistinctAfterClear(History());
      commands := [];
      notices := notices + [DrawingChanged];
    }

    /** The "undo" button. */
    method Undo()
      requires Valid()
      modifies this
      ensures Valid() && ToolsUnchanged()
      ensures History() == UndoRedo.Undo(old(History()))
      ensures cursorCommand == old(cursorCommand) && currentLineCommand == old(currentLineCommand)
      ensures notices == old(notices) + (if old(commands) != [] then [DrawingChanged] else [])
    {
      ghost var before := History();
      UndoRedo.UndoMovesLast(before);
      if |commands| > 0 {
        var last := commands[|commands| - 1];
        commands := commands[..|commands| - 1];
        redoCommands := redoCommands + [last];
        notices := notices + [DrawingChanged];
      }
      assert History() == UndoRedo.Undo(before);
    }

    /** The "redo" button. */
    method Redo()
      requires Valid()
      modifies this
      ensures Valid() && ToolsUnchanged()
      ensures History() == UndoRedo.Redo(old(History()))
      ensures cursorCommand == old(cursorCommand) && currentLineCommand == old(currentLineCommand)
      ensures notices == old(notices) + (if old(redoCommands) != [] then [DrawingChanged] else [])
    {
      ghost var before := History();
      UndoRedo.RedoMovesLast(before);
      if |redoCommands| > 0 {
        var last := redoCommands[|redoCommands| - 1];
        redoCommands := redoCommands[..|redoCommands| - 1];
        commands := commands + [last];
        notices := notices + [DrawingChanged];
      }
      assert History() == UndoRedo.Redo(before);
    }
  }

  /** Held moves through `moves` append them, in order, to the open command's points. */
  method HoldMoves(e: Editor, moves: seq<Point>)
    requires e.Valid() && e.currentLineCommand != null
    modifies e, e.currentLineCommand
    ensures e.Valid() && e.History() == old(e.History())
    ensures e.currentLineCommand == old(e.currentLineCommand)
    ensures e.currentLineCommand.points == old(e.currentLineCommand.points) + moves
    ensures e.cursorCommand == if moves == [] then old(e.cursorCommand) else None
  {
    var c := e.currentLineCommand;
    for i := 0 to |moves|
      invariant e.Valid() && e.History() == old(e.History())
      invariant e.currentLineCommand == c
      invariant c.points == old(c.points) + moves[..i]
      invariant e.cursorCommand == if i == 0 then old(e.cursorCommand) else None
    {
      e.MouseMove(moves[i], LeftButton);
      assert moves[..i + 1] == moves[..i] + [moves[i]];
    }
    assert moves[..|moves|] == moves;
  }

  /**
   * A press at `p`, held moves through `moves` and a release leave exactly one
   * new command, whose points are `p` and then the moves in order; the earlier
   * commands are untouched and nothing is left to redo.
   */
  method DrawStroke(e: Editor, p: Point, moves: seq<Point>)
    requires e.Valid()
    modifies e
    ensures e.Valid()
    ensures |e.commands| == |old(e.commands)| + 1
    ensures e.commands[..|old(e.commands)|] == old(e.commands)
    ensures forall i | 0 <= i < |old(e.commands)| :: e.commands[i].Value() == old(e.commands[i].Value())
    ensures e.commands[|e.commands| - 1].points == [p] + moves
    ensures e.commands[|e.commands| - 1].kind == old(e.PressedKinds())[0]
    ensures e.redoCommands == [] && e.currentLineCommand == null && e.cursorCommand == None
  {
    e.MouseDown(p);
    assert e.commands[|e.commands| - 1].Value().kind == old(e.PressedKinds())[0];
    assert e.commands[..|old(e.commands)|] == old(e.commands);
    HoldMoves(e, moves);
    e.MouseUp();
  }

  /** Undo followed by redo restores both stacks exactly when something was drawn. */
  method UndoThenRedo(e: Editor)
    requires e.Valid() && e.commands != []
    modifies e
    ensures e.Valid()
    ensures e.History() == old(e.History())
  {
    e.Undo();
    e.Redo();
    UndoRedo.RedoAfterUndo(old(e.History()));
  }

  /** Press at (10,10), hold through (20,10) and (20,20), release; then undo and redo. */
  method StrokeScenario()
  {
    var e := new Editor();
    DrawStroke(e, Point(10, 10), [Point(20, 10), Point(20, 20)]);
    var c := e.commands[0];
    assert e.commands == [c];
    assert c.points == [Point(10, 10), Point(20, 10), Point(20, 20)];
    e.Undo();
    assert e.History() == UndoRedo.Stacks([], [c]);
    assert e.commands == [] && e.redoCommands == [c];
    e.Redo();
    assert e.commands == [c] && e.redoCommands == [];
    assert c.points == [Point(10, 10), Point(20, 10), Point(20, 20)];
  }

  lemma StickerFrame(placed: CommandValue)
    requires placed == CommandValue(Stamp(Sticker(StickerSize, "🐱")), [Point(50, 50)])
    ensures Render.Frame([placed], None)
         == [Render.ClearRect(0, 0, 256, 256), Render.SetFontSize(32), Render.FillText("🐱", Point(50, 50))]
  {
    Render.StrokesOpsSnoc([], placed);
    assert Render.StrokesOps([placed]) == [Render.SetFontSize(32), Render.FillText("🐱", Point(50, 50))];
  }

  /** Select the first sticker, press at (50,50): one sticker command there, drawn at four times eight pixels. */
  method StickerScenario()
  {
    var e := new Editor();
    e.ClickSticker(0);
    e.MouseDown(Point(50, 50));
    e.MouseUp();
    var cat := Sticker(StickerSize, "🐱");
    var placed := CommandValue(Stamp(cat), [Point(50, 50)]);
    assert e.commands[0].Value() == placed;
    ValuesAt(e.commands, 0);
    assert Values(e.commands) == [placed];
    assert e.cursorCommand == None;
    var ops := e.Redraw();
    StickerFrame(placed);
    assert ops == [Render.ClearRect(0, 0, 256, 256), Render.SetFontSize(32), Render.FillText("🐱", Point(50, 50))];
  }
}
