# Sketchy App: the editor state machine in Dafny

Sketchy App is a browser sketchpad. You draw freehand lines with a thin or
thick marker, stamp emoji stickers, and undo, redo or clear what you drew. Its
only source file, `src/main.ts`, wires DOM events to an editor state machine.
This project models that state machine and proves what it does:

- **Drawing commands.** A press creates a line command or a sticker command.
  Each is an object holding its points, starting with the press point. Held
  moves append to the open command in place, and `display` replays it.
- **History.** There are two stacks: `commands` (done) and `redoCommands`
  (undone). The clear, undo and redo buttons and a press change them.
- **Tool selection.** There are two slots, `currentMarker` and
  `currentSticker`. Exactly one of them is filled. The thin, thick and sticker
  buttons each fill one slot and empty the other.
- **Preview.** `cursorCommand` is the glyph shown under the pointer. Entering
  and moving the pointer replace it. Leaving the canvas, a press and a held
  move drop it.
- **Rendering.** `redraw` and each `display` become functions that return a
  sequence of draw operations (`Render.DrawOp`), not canvas calls.

Modules:

- `Shapes` (shapes.dfy) holds the values: points, markers, stickers, a
  command's value (`CommandValue`) and previews. `Wrappers` holds `Option`.
- `Render` (render.dfy) holds the draw-operation sequences of `display` and
  `redraw`, with lemmas about line paths, sticker and preview placement, and
  frame order.
- `UndoRedo` (undo_redo.dfy) models the two stacks as a value. The key notion
  is the *timeline*, `done + Reverse(undone)`: undo and redo move the boundary
  between the stacks one step along it without changing it. The round trips
  follow from that.
- `Sketchpad` (sketchpad.dfy) holds the `Command` class and the `Editor`
  class. Each handler and button of the source is a method of `Editor`, proved
  against the `Render` and `UndoRedo` functions. `DrawStroke`, `UndoThenRedo`
  and the two scenario methods are clients that use only these contracts.

`Editor.Valid()` is the object invariant. It says that exactly one tool slot is
filled and that no command object occurs twice in the timeline.

Behaviour kept as the code has it:

- **Aliasing.** `currentLineCommand` is the same object that was pushed onto
  `commands`, so a held move changes that entry in place. It may also be a
  command that is no longer in `commands`. For example: press on the canvas,
  release outside it, undo, then come back with the button held. This is why
  `MouseMove` states its effect on the open object itself. It also states
  that when the open command is the last entry of `commands`, no other entry
  changes.
- **Two `if`s on press.** The press handler uses two separate `if`s, so a
  press creates one command per filled tool slot. `MouseDown` models both.
  Only `Valid()` makes the count exactly one.
- **Press notification.** The press handler publishes `"drawing-changedd"`,
  with the last letter doubled. Nothing subscribes to that name, so a press by
  itself does not redraw. `notices` records every name a handler publishes,
  and `Subscribers` is the subscription table.
- **Clear keeps the redo stack.** Clear empties `commands` and leaves
  `redoCommands` alone, so a redo right after a clear brings back the last
  undone command.
- **A dragged sticker.** A held move appends its point to a sticker command
  just as it does to a line command. The sticker is drawn only at the last of
  those points.

The one deliberate deviation is the held move with no open command. The
source dereferences the open command unguarded (src/main.ts:205, 207) and
throws. `Editor.MouseMove` does nothing to the points in that case, and a
comment in its body says so.

## Model

| member | source | states |
|---|---|---|
| `Render.LineTosAt` | src/main.ts:63-65 | the i-th lineTo of a line command goes to its i-th point |
| `Render.LinePath` | src/main.ts:57-67 | a line command draws: its marker's line width, beginPath, moveTo(first point), one lineTo per point in order with the first included, then stroke (the point count plus four operations) |
| `Render.StampAtLastPoint` | src/main.ts:103-109 | a sticker command draws only its name, at font size 8·size, at its newest point, wherever the last drag put it |
| `Render.MarkerPreviewPlacement` | src/main.ts:83-93 | the marker preview is a `*` at (x − 2·lineWidth, y + 4·lineWidth) with font size 8·lineWidth |
| `Render.StickerPreviewPlacement` | src/main.ts:124-134 | the sticker preview is its name at (x − 2, y + 4) with font size 8·size |
| `Render.StrokeOps` | src/main.ts:57-67 | the `display` of a command, a line command here and a sticker command at lines 103-109: a line draws its point count plus four operations ending in the stroke, and a sticker draws two ending in its name at its newest point. `LinePath` and `StampAtLastPoint` state the whole sequence |
| `Render.PreviewOps` | src/main.ts:83-93 | the `display` of a preview, the marker's here and the sticker's at lines 124-134: a font of 8 times the marker width or the sticker size, then one glyph. `MarkerPreviewPlacement` and `StickerPreviewPlacement` state where it goes |
| `Render.Frame` | src/main.ts:280-288 | `redraw` begins with the clear of the 256×256 canvas and has one operation more than the commands' drawings and the preview together; without a preview, the rest is exactly the commands' drawings. `RedrawOrder` states the order |
| `Render.StrokesOpsSnoc` | src/main.ts:283 | replaying one more command appends exactly that command's drawing |
| `Render.StrokesOpsAppend` | src/main.ts:283 | replaying a concatenation of command lists equals replaying the first list, then the second |
| `Render.RedrawOrder` | src/main.ts:280-288 | a frame is the clear of the 256×256 canvas, then each command's drawing in list order (commands before `s`, then `s`, then those after), then the preview when there is one |
| `UndoRedo.Undo` | src/main.ts:336-341 | undo keeps the timeline unchanged and shortens `done` by one, or by none when it is empty |
| `UndoRedo.Redo` | src/main.ts:347-352 | redo keeps the timeline unchanged and grows `done` by one, or by none when nothing is undone |
| `UndoRedo.Clear` | src/main.ts:327-330 | clear empties `done`, and what remains of the timeline is its undone part, which is kept |
| `UndoRedo.Begin` | src/main.ts:213-229 | a press appends the created commands to `done` and empties `undone`, so the timeline becomes `done` plus the new commands |
| `UndoRedo.UndoN` | src/main.ts:336-341 | k undos keep the timeline and shorten `done` by k, stopping at empty |
| `UndoRedo.RedoN` | src/main.ts:347-352 | k redos keep the timeline and grow `done` by k, stopping when `undone` is used up |
| `UndoRedo.TimelineDetermines` | src/main.ts:151-152 | two histories with the same timeline and the same number of done commands are equal |
| `UndoRedo.UndoMovesLast` | src/main.ts:336-341 | undo on a non-empty `done` moves its last element onto the end of `undone`; on an empty one it changes nothing |
| `UndoRedo.RedoMovesLast` | src/main.ts:347-352 | redo on a non-empty `undone` moves its last element back onto the end of `done`; on an empty one it changes nothing |
| `UndoRedo.RedoAfterUndo` | src/main.ts:336-352 | undo followed by redo restores both stacks exactly, for any non-empty `done` |
| `UndoRedo.UndoAfterRedo` | src/main.ts:336-352 | redo followed by undo restores both stacks exactly, for any non-empty `undone` |
| `UndoRedo.RedoNAfterUndoN` | src/main.ts:336-352 | k undos followed by k redos restore both stacks, for every k up to the number of done commands |
| `UndoRedo.RedoAfterBegin` | src/main.ts:227 | after a press redo is a no-op: new drawing invalidates the redo history |
| `UndoRedo.RedoAfterClear` | src/main.ts:327-352 | a redo right after a clear leaves exactly the most recently undone command drawn |
| `Sketchpad.Subscribers` | src/main.ts:315-317 | the bus subscriptions: a name has at most one listener; the redraw listens exactly to "drawing-changed" and "tool-moved", and the highlight updater exactly to "tool-changed" |
| `Sketchpad.PressIsNotRedrawn` | src/main.ts:228 | no listener subscribes to the name a press publishes; the redraw listens to "drawing-changed" |
| `Sketchpad.Command.constructor` | src/main.ts:53-56 | a new command has the given kind and the press point as its only point |
| `Sketchpad.Command.Drag` | src/main.ts:68-70 | drag appends the point to the command's points |
| `Sketchpad.Command.Display` | src/main.ts:57-67 | the loop emits exactly `Render.StrokeOps` of the command's current value (line path, or the sticker at its last point) |
| `Sketchpad.Replay` | src/main.ts:283 | the loop over the commands emits the concatenation of their drawings in list order |
| `Sketchpad.Editor.PressedKinds` | src/main.ts:215-226 | a press creates the marker's line command first when a marker is set and the sticker command last when a sticker is set; with exactly one tool it creates exactly one |
| `Sketchpad.Editor.Hovered` | src/main.ts:176-186 | the preview goes to the pointer position with the selected tool's glyph, the marker taking precedence; with no tool the old preview stays |
| `Sketchpad.Editor.constructor` | src/main.ts:145-162 | at start the thin marker is selected, no sticker is, both stacks are empty, there is no preview and no open command, the palette is the three default stickers, and `Valid()` holds |
| `Sketchpad.Editor.MouseOut` | src/main.ts:170-173 | leaving the canvas clears the preview and publishes "tool-moved"; nothing else changes |
| `Sketchpad.Editor.MouseEnter` | src/main.ts:175-187 | entering sets the preview for the selected tool at the pointer and publishes "tool-moved" only when a tool is set |
| `Sketchpad.Editor.MouseMove` | src/main.ts:189-211 | the preview follows the pointer, or is cleared when the left button alone is held; a held move appends the point to the open command in place, and when that command is the last entry of `commands` no other entry changes; both stacks and the open command stay the same; publishes "tool-moved", then "drawing-changed" if held |
| `Sketchpad.Editor.MouseDown` | src/main.ts:213-229 | a press clears the preview, appends one fresh command with the single press point per filled tool slot (exactly one under `Valid()`), makes the last one the open command, empties the redo stack, and publishes "drawing-changedd" |
| `Sketchpad.Editor.MouseUp` | src/main.ts:231-234 | release only closes the open command; both stacks and the preview are unchanged |
| `Sketchpad.Editor.ChangeToThickMarker` | src/main.ts:243-247 | selects the thick marker (width 4), empties the sticker slot, and so establishes exclusive selection; the drawing is unchanged |
| `Sketchpad.Editor.ChangeToThinMarker` | src/main.ts:254-258 | selects the thin marker (width 2), empties the sticker slot, and so establishes exclusive selection; the drawing is unchanged |
| `Sketchpad.Editor.ClickSticker` | src/main.ts:308-312 | selects the clicked palette sticker, empties the marker slot, and so establishes exclusive selection; the drawing is unchanged |
| `Sketchpad.Editor.AddCustomSticker` | src/main.ts:271-277 | appends a size-4 sticker with the entered name to the end of the palette; nothing else changes |
| `Sketchpad.Editor.Redraw` | src/main.ts:280-288 | emits exactly `Render.Frame` of the commands' current values and the preview |
| `Sketchpad.Editor.Clear` | src/main.ts:327-330 | the stacks become `UndoRedo.Clear` of the old ones: `commands` is emptied and `redoCommands` is untouched |
| `Sketchpad.Editor.Undo` | src/main.ts:336-341 | the stacks become `UndoRedo.Undo` of the old ones; "drawing-changed" is published only if there was something to undo |
| `Sketchpad.Editor.Redo` | src/main.ts:347-352 | the stacks become `UndoRedo.Redo` of the old ones; "drawing-changed" is published only if there was something to redo |
| `Sketchpad.HoldMoves` | src/main.ts:202-209 | a run of held moves appends the positions, in event order, to the open command and changes neither stack; after at least one held move no preview is shown |
| `Sketchpad.DrawStroke` | src/main.ts:189-234 | press, n held moves and release add exactly one command, of the selected tool's kind, with n+1 points in event order; earlier commands keep their values, nothing is left to redo and no preview is shown |
| `Sketchpad.UndoThenRedo` | src/main.ts:336-352 | on the editor, undo then redo restores both stacks exactly when something was drawn |
| `Sketchpad.StickerFrame` | src/main.ts:103-109 | a cat sticker placed at (50,50) redraws as the clear, font size 32, and the glyph at (50,50) |

## Left out

- DOM construction, headers, buttons and their labels, and the CSS highlighting in `changeTool` (src/main.ts:4-15, 18-19, 236-242, 248-253, 259-269, 290-302, 321-326, 332-335, 343-346): these are UI only. `Subscribers` records only that "tool-changed" reaches the highlight updater.
- The event bus mechanics (src/main.ts:164-168): each handler is a direct method call and appends the names it publishes to `notices`. A published name does not call `Redraw` automatically.
- Event delivery by the browser, and which events reach the canvas (a release outside it is never delivered). The model accepts any order of handler calls.
- `window.prompt` (src/main.ts:273): the entered text is a parameter of `AddCustomSticker`. Cancelling the prompt, where the source would store a null name, is not modelled.
- The canvas context itself (src/main.ts:46, 143): fonts become a pixel size in `SetFontSize`. The `"black"` stroke style set by the Marker constructor and the context and button fields of `Tool` are not modelled.
- Floating-point coordinates: pointer offsets and sizes are integers. The preview divisions are exact for integer widths, and `Render.MarkerPreviewPlacement` states the results as 2·lineWidth and 4·lineWidth.
- Object identity of markers and stickers: both are values, because the source never mutates them. Their identity matters only for finding the selected tool's own button to highlight (src/main.ts:296-301).
- The held move with no open command (src/main.ts:205, 207): the source throws, and the model leaves the points unchanged and still publishes "drawing-changed".
