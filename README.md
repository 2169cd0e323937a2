# faiface/gui in Dafny

A model of the core of faiface/gui, a Go library that routes window events
through a tree of environments (Envs) and splits screen space among widgets.
An Env has an event channel and a draw channel; muxes share one Env among
many children; layouts cut the parent's rectangle into the children's; a
pattern trie dispatches "/"-separated event strings to handlers; layer lists
keep widgets in z-order.

What is modelled, one Dafny module per Go file:

- Space partitioners: `EvenSplit` (module `Split`, also standing for the
  identical `evenSplit` of box.go), `Box`, `Grid` (with the lemmas in
  `GridProperties`), `Scroller` and `FixedGrid`, as rectangle arithmetic with
  Go's truncating division (`Geom.TruncDiv`) and `image.Rect`'s coordinate
  swap (`Geom.MakeRect`).
- The event pattern trie of event/dispatch.go (`Dispatch`), with `Sprint` and
  `Sscan` over decimal integers (`Decimal`, `Path`).
- The three layer lists (`LayoutLayer`, `Layer`, `Layers`, sharing the list
  operations of `Order`) and `Sub`, with layers as identities in front-first
  order and each flush as the order in which layers are composited.
- The unbounded event queue of `MakeEventsChan` (`EventsChan`) and the three
  child registries: `gui.Mux` (`Mux`), `layout.Mux` (`LayoutMux`) and the
  name-keyed `layout.Layout` (`NamedLayout`), built on the sinks of `Sinks`.
  Every locked block or goroutine step is one atomic method. A channel
  becomes a sink (what it received, and whether it is closed). A Go panic is
  the `Panic` alternative of `Outcome.Result`, carrying its message. The
  Go runtime's messages are spelled once, in `Outcome`. The index panic is
  abbreviated: Go appends "[i] with length n".
- The stateless event rewriters `RedrawIntercepter` (`Intercepter`) and the
  image viewer's splits (`Splits`), the `String()` forms of the window events
  (`Events`), and the two example buttons (`Buttons`).

Handlers, split functions and `Lay` functions are parameters. Handlers are
identities judged by an oracle `fire(handler, argument)` that says whether
the handler consumes the event.

Where the repository's documentation and its code disagree, the model follows
the code:

- `EvenSplit(3, 10)` is `[3, 3, 4]`: the remainder goes to the later entries
  (`Split.EvenSplitExample`).
- When parent events end, `gui.Mux` closes every listed sink but keeps the
  list (mux.go:46-50).
- The Scroller's intercepter does not forward pointer moves or scrolls to its
  children (layout/scroller.go:82-104).

## Model

| member | source | states |
|---|---|---|
| Geom.MakeRect | layout/box.go:85 | `image.Rect` orders each pair of coordinates, so the result is well formed and keeps the given corners |
| Geom.Intersect | layout/sub.go:35 | a point is in the intersection iff it is in both rectangles; an empty intersection is the zero rectangle; a non-zero one lies inside both |
| Geom.Transpose | layout/grid.go:82-92 | swapping the axes swaps width and height |
| Geom.TransposeMakeRect | layout/grid.go:103-107 | `image.Rect` with swapped arguments is the transpose of the unswapped rectangle |
| Geom.TruncDiv | layout/fixedgrid/fixedgrid.go:44-45 | Go's `/` truncates toward zero: the remainder it leaves has the sign of the dividend and is smaller than the divisor in magnitude |
| Geom.TruncDivMul | examples/imageviewer/splits.go:97 | a multiple of n divided by n gives back the factor |
| Decimal.NatToString | win/events.go:86 | `%d` of a natural number is a non-empty digit string with no leading zero |
| Decimal.IntToString | win/events.go:86 | `%d` is non-empty and holds no "/" or ";"; it is all digits exactly when the number is non-negative |
| Decimal.ParseNatToString | event/dispatch.go:25 | scanning the printed digits of n gives n |
| Decimal.ParseIntToString | event/dispatch.go:25 | scanning the printed form of any int gives it back |
| Decimal.IntToStringInjective | layout/fixedgrid/fixedgrid.go:52 | different numbers print differently |
| Path.Split | event/dispatch.go:24 | `strings.Split` on "/" gives at least one part and no part holds "/" |
| Path.JoinSplit | event/dispatch.go:74 | joining the split parts of a string gives the string back |
| Path.SplitJoin | event/dispatch.go:24 | splitting the join of separator-free parts gives the parts back |
| Path.JoinSnoc | event/dispatch.go:16 | joining one more part appends one separator and that part |
| Events.ButtonNames | win/events.go:12-16 | each mouse button's name reads back as that button and holds no "/" |
| Events.KeyNames | win/events.go:22-40 | each key's name reads back as that key and holds no "/" |
| Events.KeyNamesDistinct | win/events.go:22-40 | the 17 key names are pairwise different |
| Events.ButtonName | win/events.go:12-16 | definition: the three button names |
| Events.KeyName | win/events.go:22-40 | definition: the seventeen key names |
| Events.String | win/events.go:84-93 | mouse events print with prefix "mo/", keyboard events with "kb/", window events with "wi/", in both directions |
| Events.ParsePartsOfEvent | win/events.go:84-93 | the "/"-parts of a window event's string read back as that event |
| Events.ParseString | win/events.go:84-93 | a window event's `String()` reads back as that event, so nothing is lost |
| Events.StringInjective | win/events.go:84-93 | two window events with the same string are the same event |
| Split.EvenSplitSpec | layout/split.go:10-18 | one loop round per element, so exactly `elements` lengths |
| Split.EvenSplit | layout/split.go:10-18 | the loop appends exactly the lengths of `EvenSplitSpec`; a negative count panics in `make` |
| Split.EvenSplitSum | layout/split.go:3-6 | the lengths add up to the width for any width; zero elements give the empty slice |
| Split.EvenSplitClosedForm | layout/split.go:12-17 | for a non-negative width, length i is width/elements, plus one for the last width%elements entries |
| Split.EvenSplitAlmostEven | layout/split.go:8-9 | for a non-negative width, lengths are non-negative, never decrease, and differ by at most one |
| Split.EvenSplitExample | layout/split.go:10-18 | splitting 10 among 3 gives [3, 3, 4] |
| Split.EvenHonoursContract | layout/split.go:3-6 | `EvenSplit` meets the `SplitFunc` contract: one length per element, summing to the space |
| Box.ConfigureGap | layout/box.go:35-44 | defaults have gap 0; options apply in order, so the last gap option wins |
| Box.ConfigureBackground | layout/box.go:35-44 | defaults have a black background; the last `BoxBackground` option wins |
| Box.ConfigureSplit | layout/box.go:35-44 | defaults split evenly; the last `BoxSplit` option wins, a nil one installing a nil split |
| Box.ConfigureVertical | layout/box.go:35-44 | a box is vertical exactly when some option made it so |
| Box.Defaults | layout/box.go:36-40 | definition: black background, the even split, gap 0, horizontal |
| Box.ApplyOption | layout/box.go:52-72 | definition: each option sets its own field; `BoxSplit` installs the given function, nil included |
| Box.Installed | layout/box.go:62-66 | definition: a `BoxSplit` function, or a nil split for nil, with no fallback to the even split |
| Box.Configure | layout/box.go:41-43 | definition: the options applied one after another, in order |
| Box.Start | layout/box.go:84-94 | definition: entry i starts one gap in, after the lengths before it and one gap after each |
| Box.Available | layout/box.go:83-90 | definition: the extent along the axis less one gap before, between and after the items |
| Box.Box.NewBox | layout/box.go:35-44 | the box's settings are the defaults with the options applied in order |
| Box.Box.Apply | layout/box.go:52-72 | each option setter changes exactly its own field |
| Box.Cells | layout/box.go:78-97 | one rectangle per split entry |
| Box.Box.Lay | layout/box.go:78-97 | panics exactly when the split function is nil, as calling a nil func does; otherwise splits the length left after the gaps and returns the cells of that split, in order |
| Box.LayCells | layout/box.go:81-95 | the loop over the split places exactly the cells `Cells` describes, each one gap after the previous |
| Box.HorizontalCells | layout/box.go:88-95 | horizontally each cell spans Min.Y+Gap to Max.Y-Gap and is as wide as its entry; the first starts at Min.X+Gap and each next one a gap after the previous one ends |
| Box.LastCellEnds | layout/box.go:88-95 | with the even split and room for the gaps, the last cell ends exactly at Max.X-Gap |
| Box.VerticalIsTransposed | layout/box.go:81-87 | vertical mode is horizontal mode on the transposed bounds, transposed back |
| Grid.RowCells | layout/grid.go:101-110 | one rectangle per column width |
| Grid.RowsFrom | layout/grid.go:96-112 | definition: the cells of the first n rows in row-major order, or the first panic: a missing row height indexes out of range, and a column split may panic |
| Grid.LaySpec | layout/grid.go:57-115 | definition: the row heights split the height left after gaps and margins (nil split: even), then `RowsFrom` over all rows |
| Grid.PanicPropagates | layout/grid.go:97-98 | once a row panics (a split function returned too few lengths), the whole layout is that panic |
| Grid.LayRow | layout/grid.go:101-110 | the column loop produces exactly the row's cells |
| Grid.Lay | layout/grid.go:57-115 | the nested loops produce exactly `LaySpec`, panics included |
| Grid.LayRows | layout/grid.go:96-112 | the row loop produces exactly the cells of all rows, or the first panic of a missing row height or a column split |
| Grid.RowStep | layout/grid.go:97-110 | one more row: an index panic past the row heights, the column split's panic, or the earlier cells followed by the row's |
| GridProperties.HonoursLength | layout/split.go:3-6 | a split function that honours the contract gives one length per element |
| GridProperties.RowsFromCount | layout/grid.go:97-112 | rows laid so far contribute one cell per column of each row |
| GridProperties.LayCount | layout/grid.go:97-114 | with contract-honouring splits the layout has sum(Rows) cells |
| GridProperties.RowsFromCell | layout/grid.go:96-111 | cell j of row y is at index sum(Rows[..y])+j, placed after the margin, gaps and earlier cells |
| GridProperties.LayCell | layout/grid.go:93-111 | as `RowsFromCell` for the whole layout: row heights split the height left after gaps and margins, column widths the width |
| GridProperties.LayNeighbours | layout/grid.go:96-111 | unflipped: cells of row y are rowsH[y] high, neighbours in a row are one gap apart, and the next row starts one gap below |
| GridProperties.HonoursOne | layout/split.go:3-6 | a split function that honours the contract gives a single element all the space |
| GridProperties.SingleCell | layout/grid.go:93-108 | Rows [1] with no gap and no margin, and split functions that are nil or honour the contract, lays the child over the whole bounds |
| GridProperties.RowsFromFlip | layout/grid.go:103-107 | flipped rows are the transposes of unflipped rows |
| GridProperties.FlipTransposes | layout/grid.go:80-107 | Flip gives the transpose of the unflipped layout of the transposed bounds |
| Scroller.Clamp | layout/scroller.go:33-50 | the result lies between a and b whichever is larger; a value inside is kept, one outside goes to the nearer end |
| Scroller.ClampIdempotent | layout/scroller.go:33-50 | clamping twice is clamping once |
| Scroller.Step | layout/scroller.go:79-114 | definition: a move sets `over` and is dropped; a scroll while over moves the offset by 16 per unit, clamped, and re-sends the stored resize on a change; a resize is stored and forwarded; anything else is forwarded |
| Scroller.Children | layout/scroller.go:120-133 | exactly Length rectangles |
| Scroller.ChildrenShape | layout/scroller.go:126-130 | child i spans X from Min.X+Gap to Max.X-Gap and Y from Min.Y+Offset+Gap+i*(ChildHeight+Gap), ChildHeight high |
| Scroller.Scroller.constructor | layout/scroller.go:16-23 | a scroller holds the given settings |
| Scroller.Scroller.Lay | layout/scroller.go:120-133 | the loop returns `Children`; a negative Length panics in `make` |
| Scroller.ScrollStep | layout/scroller.go:86-104 | a scroll moves the offset only while the pointer is over the view, to the clamp of old+16*delta between viewport-content and 0, and re-sends the stored resize exactly when the offset changed |
| Scroller.OtherSteps | layout/scroller.go:79-114 | other events keep the offset; a move sets `over` and is not forwarded; a resize is stored; everything else is forwarded unchanged |
| Scroller.ScrollByZero | layout/scroller.go:91-103 | with the offset in range, a zero scroll changes nothing and sends nothing |
| Scroller.Scrolling.constructor | layout/scroller.go:57-61 | the intercepter starts not hovered, with the zero rectangle |
| Scroller.Scrolling.Handle | layout/scroller.go:79-114 | one event changes the view and sends what `Step` says, and leaves the scroller's settings alone |
| FixedGrid.ConfigureColumns | layout/fixedgrid/fixedgrid.go:22-33 | Columns defaults to 1 and the last Columns option wins |
| FixedGrid.ConfigureRows | layout/fixedgrid/fixedgrid.go:22-33 | Rows defaults to 1 and the last Rows option wins |
| FixedGrid.ConfigureGap | layout/fixedgrid/fixedgrid.go:22-33 | Gap defaults to 0 and the last Gap option wins |
| FixedGrid.ConfigureBackground | layout/fixedgrid/fixedgrid.go:22-33 | Background defaults to black and the last Background option wins |
| FixedGrid.Defaults | layout/fixedgrid/fixedgrid.go:23-29 | definition: one column, one row, black, gap 0 |
| FixedGrid.ApplyOption | layout/fixedgrid/fixedgrid.go:62-84 | definition: each option sets its own field |
| FixedGrid.Configure | layout/fixedgrid/fixedgrid.go:31-33 | definition: the options applied one after another, in order |
| FixedGrid.Key | layout/fixedgrid/fixedgrid.go:52 | definition: the key `fmt.Sprintf("%d;%d", x, y)` |
| FixedGrid.CellAt | layout/fixedgrid/fixedgrid.go:48-56 | definition: cell (x, y) starts one gap in plus x columns and y rows, each with its gap, and is w by h |
| FixedGrid.KeyInjective | layout/fixedgrid/fixedgrid.go:52 | different cells have different "x;y" keys |
| FixedGrid.CellGeometry | layout/fixedgrid/fixedgrid.go:48-56 | cell (x,y) starts at (Min.X+gap+x*(gap+w), Min.Y+gap+y*(gap+h)), is w by h, and the next cell across or down starts one gap after it |
| FixedGrid.ColumnsFit | layout/fixedgrid/fixedgrid.go:44-56 | when the gaps fit, the width is non-negative and every column ends at least a gap before Max.X |
| FixedGrid.CellSizeFits | layout/fixedgrid/fixedgrid.go:44-45 | when the gaps fit, n cells of the truncated size fit in what is left |
| FixedGrid.FilledKeys | layout/fixedgrid/fixedgrid.go:50-58 | before cell (x,y) the map holds exactly the keys of the cells the loops passed |
| FixedGrid.FilledSize | layout/fixedgrid/fixedgrid.go:50-58 | before cell (x,y) the map has x*rows+y keys, all grid keys |
| FixedGrid.FilledValues | layout/fixedgrid/fixedgrid.go:50-58 | every key placed maps to its own cell |
| FixedGrid.FilledIsLayout | layout/fixedgrid/fixedgrid.go:39-60 | after all columns the map is exactly the grid's cells, cols*rows keys |
| FixedGrid.FixedGrid.New | layout/fixedgrid/fixedgrid.go:22-37 | the settings are the defaults with the options applied in order |
| FixedGrid.FixedGrid.Apply | layout/fixedgrid/fixedgrid.go:62-84 | each option setter changes exactly its own field |
| FixedGrid.FixedGrid.Layout | layout/fixedgrid/fixedgrid.go:39-60 | zero columns or rows divide by zero; otherwise exactly one "x;y" key per cell, mapped to its cell, Columns*Rows keys |
| FixedGrid.LayColumn | layout/fixedgrid/fixedgrid.go:51-55 | the inner loop adds the cells of one column |
| Dispatch.Sprint | event/dispatch.go:12-21 | the printed arguments joined by "/", with no leading or trailing separator |
| Dispatch.Sscan | event/dispatch.go:23-27 | part i is scanned into target i; more parts than targets index out of range and panic |
| Dispatch.ScanSprint | event/dispatch.go:12-27 | scanning what `Sprint` printed for some ints into as many targets gives the ints back |
| Dispatch.Segments | event/dispatch.go:35-48 | the empty string has no segments; any other string is split at "/" |
| Dispatch.HandlersAtEmpty | event/dispatch.go:29-33 | an empty Dispatch has no handlers anywhere |
| Dispatch.Insert | event/dispatch.go:50-66 | definition: an empty pattern appends the handler at this node; otherwise the first segment's child, created when missing, takes the rest |
| Dispatch.HandlersAt | event/dispatch.go:50-66 | definition: the handlers of the node a path of segments leads to, none when the path leaves the trie |
| Dispatch.InsertHandlersAt | event/dispatch.go:50-66 | registering appends the handler at its pattern's node, creating missing nodes, and changes no other node |
| Dispatch.UntilConsumedSpec | event/dispatch.go:73-77 | handlers are called in order until one consumes; the dispatch is consumed iff some handler consumes, and then the last call is the first consumer |
| Dispatch.UntilConsumedAppend | event/dispatch.go:73-88 | handlers of a later group are called only when no earlier one consumed |
| Dispatch.UntilConsumed | event/dispatch.go:73-77 | definition: call the handlers in order and stop after the first that consumes |
| Dispatch.Along | event/dispatch.go:68-91 | definition: the calls of each prefix node in turn, shallower first, each with the rest of the event joined by "/" |
| Dispatch.Descend | event/dispatch.go:68-91 | definition: this node's handlers get the rest of the event joined by "/"; unless one consumed, the child for the next segment, if any, continues |
| Dispatch.DescendIsAlong | event/dispatch.go:68-91 | `happen` offers the event to the handlers of each prefix node, shallower first and in registration order, each with the rest of the event, stopping at the first consumer or at a missing node |
| Dispatch.UntilConsumedReaches | event/dispatch.go:73-77 | a handler is called when none of the handlers ahead of it consumed |
| Dispatch.RegisteredIsCandidate | event/dispatch.go:50-91 | a handler registered at p is a candidate for every event that extends p, given the remaining segments joined by "/", and is called unless a candidate ahead of it consumes the event |
| Dispatch.Dispatch.constructor | event/dispatch.go:29-33 | a new Dispatch has an empty trie |
| Dispatch.Dispatch.Event | event/dispatch.go:35-41 | the empty pattern registers at the root; others follow their segments |
| Dispatch.Dispatch.Happen | event/dispatch.go:43-48 | the result is the consumption of `Descend` on the event's segments |
| Dispatch.HappenAt | event/dispatch.go:68-91 | the handler loop and the descent compute exactly `Descend` |
| Order.Without | layout/layer.go:62 | removing a layer from the list keeps exactly the others, and no duplicates |
| Order.WithoutAt | layout/layer.go:62 | removing the layer at position k leaves the others in their order |
| Order.WithoutAbsent | layout/layer.go:62 | removing a layer that is not in the list changes nothing |
| Order.MoveToFront | layout/layer.go:70 | the layer ends up first and the list keeps the same members |
| Order.MoveToFrontPermutes | layout/layer.go:70 | moving to the front is a permutation |
| Order.Reverse | layout/layer.go:91-94 | walking back to front visits the layers in reverse order |
| Order.ResizedTwice | layout/layer.go:33-38 | resizing to the same bounds twice is resizing once |
| Order.ResizeBackToFront | layer/layer.go:25-30 | the back-to-front loop gives exactly `Resized` |
| Order.ResizeFrontToBack | layers/layers.go:19-24 | the front-to-back loop gives exactly `Resized` |
| Order.OfferLayers | layout/layer.go:77-82 | layers are tried front to back until one consumes |
| LayoutLayer.InitialResize | layout/layer.go:27-44 | the resize printed from the destination's bounds reaches the "resize" handler with its four coordinates and is not consumed |
| LayoutLayer.LayerList.Zero | layout/layer.go:18-22 | a zero `LayerList` has no destination, no layers and no handlers |
| LayoutLayer.LayerList.NewLayerList | layout/layer.go:24-47 | a new list holds only its "resize" handler, is routed from the destination, and has no layers |
| LayoutLayer.LayerList.InitialHappen | layout/layer.go:43-44 | the resize dispatched when there are no layers yet neither panics nor is consumed, and leaves the list valid and without layer images |
| LayoutLayer.LayerList.ResizeHandler | layout/layer.go:29-41 | panics exactly on extra event parts or a missing destination; otherwise every layer gets the destination's bounds |
| LayoutLayer.LayerList.Happen | layout/layer.go:73-84 | the list's own dispatch runs first, then the layers front to back; the first consumer wins, and resize handler panics propagate |
| LayoutLayer.LayerList.RunResizes | layout/layer.go:29-41 | the resize handler calls of one dispatch, in order: panics iff one fails, otherwise layers are resized iff a resize call was made |
| LayoutLayer.LayerList.Add | layout/layer.go:49-56 | a new layer at the front with the destination's bounds, the others in order; the zero list panics |
| LayoutLayer.LayerList.Remove | layout/layer.go:58-64 | panics on a removed layer; otherwise removes exactly that layer and marks it removed |
| LayoutLayer.LayerList.Front | layout/layer.go:66-71 | panics on a removed layer; otherwise moves only it to the front |
| LayoutLayer.LayerList.Flush | layout/layer.go:86-96 | panics with no destination; otherwise composites back to front and flushes the destination once |
| LayoutLayer.LayerList.FlushLayer | layout/layer.go:113-118 | a removed layer panics; otherwise the list's flush |
| LayoutLayer.LayerList.Event | layout/layer.go:19 | a handler registered on the list goes into its own trie |
| LayoutLayer.LayerList.LayerEvent | layout/layer.go:99 | a handler registered on a layer goes into that layer's trie only |
| LayoutLayer.AddedOnTop | layout/layer.go:49-56 | a layer just added to a list with a destination is composited last by the next flush, on top |
| LayoutLayer.FrontedOnTop | layout/layer.go:66-71 | a layer brought to the front is composited last by the next flush; a removed one panics instead |
| Layer.List.constructor | layer/layer.go:17-21 | a zero list has no destination, no layers and no handlers |
| Layer.List.Dst | layer/layer.go:23-31 | records the destination, nil included; with a destination every layer is resized to its bounds, order unchanged; a nil destination panics on the nil dereference iff a layer is listed, leaving the images as they were |
| Layer.List.Push | layer/layer.go:33-40 | a new layer at the front with the destination's bounds; without a destination it panics |
| Layer.List.Flush | layer/layer.go:42-52 | panics with no destination; otherwise composites back to front and flushes once |
| Layer.List.Happen | layer/layer.go:54-63 | the own dispatch's result is ignored; layers are tried front to back, the first consumer wins |
| Layer.HappenIgnoresOwn | layer/layer.go:54-63 | the result is true iff some layer consumes, whatever the list's own handlers decide |
| Layer.List.RemoveLayer | layer/layer.go:72-74 | removes exactly that layer |
| Layer.List.FrontLayer | layer/layer.go:76-78 | moves only that layer to the front |
| Layer.List.FlushLayer | layer/layer.go:84-86 | a layer's flush is its list's flush |
| Layer.List.Event | layer/layer.go:18 | a handler registered on the list goes into its own trie |
| Layer.List.LayerEvent | layer/layer.go:66 | a handler registered on a layer goes into that layer's trie only |
| Layers.Layers.constructor | layers/layers.go:10-14 | a zero `Layers` has no destination, the zero rectangle and no layers |
| Layers.Layers.Dst | layers/layers.go:16-25 | records the destination and r and gives every layer an image bounded by r, order unchanged |
| Layers.Layers.Push | layers/layers.go:27-34 | a new layer at the back with bounds r |
| Layers.Layers.Flush | layers/layers.go:36-45 | panics with no destination; otherwise composites front to back, so the last layer is on top |
| Layers.Layers.RemoveLayer | layers/layers.go:53-55 | removes exactly that layer |
| Layers.Layers.FrontLayer | layers/layers.go:57-59 | moves only that layer to the head, where it is painted first |
| Layers.PushedOnTop | layers/layers.go:27-44 | a pushed layer is painted last by the next flush, after the earlier layers in their order |
| Layers.FrontedAtBottom | layers/layers.go:36-59 | a listed layer moved to the front is painted first by the next flush, and the others after it in their order |
| Layers.PaintOrder | layers/layers.go:57-59 | a listed layer moved to the front comes first, and the others keep their order |
| Sub.InitialResize | layout/sub.go:13-20 | the resize `NewSub` prints reaches its "resize" handler with the four coordinates and is not consumed |
| Sub.CutPrinted | layout/sub.go:14-17 | scanning the printed coordinates of r gives the parent's image cut to r |
| Sub.Cut | layout/sub.go:14-17 | definition: the four scanned coordinates (0 where missing) as `image.Rect`, intersected with the parent's bounds |
| Sub.NewSubResize | layout/sub.go:13-20 | the dispatch `NewSub` runs makes one resize call that does not fail, and it cuts `image.Rect` of r from the parent |
| Sub.Sub.NewSub | layout/sub.go:9-22 | a new Sub holds its resize handler and its image is the parent's cut to `image.Rect` of r |
| Sub.Sub.InitialHappen | layout/sub.go:20 | dispatching the printed resize neither panics nor is consumed, and leaves the Sub's image as the parent's cut to `image.Rect` of r |
| Sub.Sub.ResizeHandler | layout/sub.go:13-19 | panics exactly on more than four parts; otherwise the image becomes the parent's cut to the scanned rectangle |
| Sub.Sub.Happen | layout/sub.go:13-20 | a dispatch of the Sub's own trie; the last resize call decides the image |
| Sub.Sub.RunResizes | layout/sub.go:13-19 | the resize calls in order: panics iff one fails, else the last one decides the image |
| Sub.Sub.Flush | layout/sub.go:34-37 | forwards exactly the requested rectangle clipped to the Sub's image |
| Sub.Sub.Event | layout/sub.go:24-28 | a handler registered on the Sub goes into its trie |
| EventsChan.EventsChan.constructor | event.go:70-75 | a new channel is open, empty, with nothing accepted |
| EventsChan.EventsChan.Send | event.go:77-82 | an event sent while the input is open is queued at the tail; a send on a closed input panics |
| EventsChan.EventsChan.CloseIn | event.go:77-80 | closing the input keeps the queue, closing the output at once only when the queue is empty; a second close panics |
| EventsChan.EventsChan.Receive | event.go:84-98 | the head of the queue is delivered, once; a closed output gives nothing; delivered plus queued is always what was accepted |
| EventsChan.EventsChan.Drain | event.go:88-94 | after the input closes, everything queued is delivered in order and the output closes, once |
| Sinks.SendAll | mux.go:41-43 | every listed sink gets the event appended; the others are untouched |
| Sinks.Fanned | mux.go:41-43 | every listed sink gets the event appended; the others are untouched; no sink is added or dropped |
| Sinks.CloseAll | mux.go:47-49 | closing every listed sink panics iff one is already closed; otherwise exactly the listed sinks are closed |
| Sinks.Closed | mux.go:47-49 | exactly the listed sinks are marked closed; no sink is added or dropped |
| Sinks.FirstIndex | mux.go:120-125 | the first position holding the sink |
| Sinks.LoopIndex | mux.go:120-125 | the removal loop stops at the first match, or leaves `i` at the last index, or -1 for an empty list |
| Sinks.FindLoop | mux.go:120-125 | the loop computes `LoopIndex` |
| Sinks.Removal | mux.go:120-128 | definition: splice out the position the loop stops at, if any |
| Sinks.RemoveLoop | mux.go:120-128 | the loop and the splice compute `Removal`, keeping the list free of duplicates |
| Sinks.Splice | mux.go:127 | splicing out one position of a duplicate-free list removes exactly that sink |
| Sinks.RemovalPresent | mux.go:120-128 | a listed sink is removed, and nothing else |
| Sinks.RemovalAbsent | mux.go:120-128 | an unlisted sink makes the loop drop the last listed sink |
| Sinks.RemovalDropsStranger | mux.go:120-128 | closing unlisted env 1 with list [2] empties the list, where the intended removal keeps [2] |
| Sinks.Unlisted | mux.go:126-127 | definition: the intended removal splices out the sink's first position if it is listed, and keeps the list otherwise |
| Sinks.UnlistedRemovesOnlyId | mux.go:126-127 | the intended removal removes exactly the sink and keeps the list free of duplicates |
| Sinks.RemovalAgrees | mux.go:120-128 | for a listed sink, or an empty list, the loop as written is the intended removal |
| Mux.Mux.NewMux | mux.go:23-26 | the master is made like any env and is listed first |
| Mux.Mux.MakeEnv | mux.go:71-83 | the new sink is appended to the list and gets the cached resize first |
| Mux.Mux.ParentEvent | mux.go:36-45 | a resize is cached; every listed sink gets the event, in list order |
| Mux.Mux.ParentEnd | mux.go:46-50 | every listed sink is closed; the list is kept |
| Mux.Mux.ParentEndClearing | mux.go:46-50 | corrected: every listed sink is closed and the list is cleared, so every listed sink is open afterwards |
| Mux.Mux.Draw | mux.go:100-108 | a command is forwarded until the shared draw closes; from then on it is discarded and the env drains |
| Mux.Mux.CloseDraw | mux.go:110-130 | the master's close closes every listed sink, empties the list and closes the shared draw, panicking iff a listed sink was already closed, before the list is emptied or the draw closed; a child's close removes it by the loop as written |
| Mux.Mux.CloseMaster | mux.go:110-117 | the master's close, on its own: a panic on an already closed sink leaves the list and the draw channel as they were |
| Mux.Mux.RemoveSink | mux.go:118-130 | a child's close removes its sink by the loop; while the mux runs, exactly that sink leaves the list |
| Mux.ParentEndThenMasterClose | mux.go:110-117 | parent events ending and then the master closing panics with "close of closed channel" |
| Mux.ParentEndClearingThenMasterClose | mux.go:110-117 | with the corrected end of events, the master's close succeeds |
| LayoutMux.PartitionedAt | layout/mux.go:73-76 | the child at position i of the list gets a resize to lay[i], and nothing else |
| LayoutMux.Partitioned | layout/mux.go:73-76 | the child at position i gets a resize to lay[i], the others are untouched, and no sink is added or dropped |
| LayoutMux.SendPartitioned | layout/mux.go:73-76 | the loop gives every listed child its own rectangle |
| LayoutMux.Mux.Start | layout/mux.go:35-42 | the master is made and not listed |
| LayoutMux.Mux.MakeChild | layout/mux.go:107-121 | a child is appended to the list and gets the raw cached resize first |
| LayoutMux.Mux.ParentEvent | layout/mux.go:57-83 | the master gets every event unchanged; a resize is cached raw and cut among the listed children, or reaches none when `Lay` gives too few rectangles; other events reach every listed child |
| LayoutMux.Mux.EventsEnd | layout/mux.go:85-89 | every listed child is closed |
| LayoutMux.Mux.MasterDraw | layout/mux.go:144-146 | the master's commands are forwarded |
| LayoutMux.Mux.Draw | layout/mux.go:138-146 | a child's command is forwarded until the shared draw closes, then discarded |
| LayoutMux.Mux.CloseMaster | layout/mux.go:148-155 | every listed child is closed, the list emptied and the shared draw closed; panics iff a listed sink was closed, before the list is emptied or the draw closed |
| LayoutMux.Mux.CloseChild | layout/mux.go:156-167 | the child leaves the list by the loop as written; while the mux runs, exactly that child leaves |
| LayoutMux.NewMux | layout/mux.go:92-94 | one listed child per entry of `envs`, in order, all open and empty |
| NamedLayout.SendEach | layout/layout.go:65-70 | each registered child gets the event for its name, once, whatever the map order; the others are untouched |
| NamedLayout.Layout.ValidOneSinkPerName | layout/layout.go:109 | every registered name has its own open sink |
| NamedLayout.Layout.New | layout/layout.go:24-38 | a new layout has no child, no cached resize and nothing queued |
| NamedLayout.Layout.ParentEvent | layout/layout.go:46-50 | a parent event joins the master's queue |
| NamedLayout.Layout.Step | layout/layout.go:52-77 | a resize is cached, a redraw of its rectangle submitted, and each name resized to its `Lay` rectangle; other events reach every registered child |
| NamedLayout.Layout.Broadcast | layout/layout.go:65-75 | every registered child's sink receives its own event once; unregistered sinks are untouched |
| NamedLayout.Layout.GetEnv | layout/layout.go:102-117 | the new sink is registered under the name, replacing an earlier one, and gets the cached resize first |
| NamedLayout.Layout.Draw | layout/layout.go:140-142 | a child's command is forwarded |
| NamedLayout.Layout.CloseChild | layout/layout.go:152-161 | the name is unregistered, the child's sink closed, and the cached resize queued again |
| NamedLayout.ClosedNotRegistered | layout/layout.go:152-157 | a closed child is never registered, so it is sent nothing more |
| NamedLayout.SameNameTwice | layout/layout.go:152-157 | the first of two children of one name closing unregisters the name, so the second gets no events |
| Intercepter.Handle | layout/intercepter.go:30-38 | each event is passed on first |
| Intercepter.HandleParts | layout/intercepter.go:30-38 | one event is passed, and a resize adds one redraw of its rectangle |
| Intercepter.Intercept | layout/intercepter.go:29-39 | definition: the outputs of each event in turn |
| Intercepter.PassesEverything | layout/intercepter.go:30-31 | the user sees exactly the env's events, unchanged and in order |
| Intercepter.RedrawsEachResize | layout/intercepter.go:32-37 | one redraw per resize, of its rectangle, in order; no other event redraws |
| Intercepter.RedrawFollowsResize | layout/intercepter.go:31-37 | each redraw comes right after the resize it answers |
| Intercepter.InterceptNeverCloses | layout/intercepter.go:29-39 | as written, the user's events are never closed, whatever the trace |
| Intercepter.InterceptClosing | layout/intercepter.go:29-39 | definition: the output followed by the close of the user's events |
| Intercepter.InterceptClosingEnds | layout/intercepter.go:29-39 | with the close, every event is still passed in order, and the close comes once, last |
| Splits.Rewrite | examples/imageviewer/splits.go:18-107 | a non-resize passes unchanged; a resize stays a resize; only `EvenHorizontal` with n = 0 panics, dividing by zero |
| Splits.Forward | examples/imageviewer/splits.go:90-104 | every event is rewritten in order; a panic stops at the first event that causes it |
| Splits.Boundary | examples/imageviewer/splits.go:97 | definition: column boundary i of n at `x0+(x1-x0)*i/n` with Go's truncating division |
| Splits.LeftRightSplit | examples/imageviewer/splits.go:18-52 | `FixedLeft(x)` and `FixedRight(x)` split a resize's rectangle: every point is in exactly one |
| Splits.TopBottomSplit | examples/imageviewer/splits.go:54-88 | `FixedTop(y)` and `FixedBottom(y)` split it the same way |
| Splits.BoundaryMonotone | examples/imageviewer/splits.go:96-97 | column boundaries grow with the column; boundary 0 is Min.X and boundary n is Max.X |
| Splits.Column | examples/imageviewer/splits.go:95-98 | definition: column c of n is the rectangle `EvenHorizontal(c, c+1, n)` resizes to |
| Splits.ColumnsTile | examples/imageviewer/splits.go:95-98 | the n columns tile the rectangle: every point is in exactly one |
| Splits.ColumnsInside | examples/imageviewer/splits.go:95-98 | columns [minI, maxI) lie inside the rectangle with Y untouched, and (0, n, n) is the whole rectangle |
| Buttons.Step | examples/layout/button.go:37-66 | redraws show the new state; the action fires iff a release lands inside while pressed; nothing is emitted iff nothing changed and it was not a resize; a release unpresses; a press sticks only inside |
| Buttons.LayoutInput | examples/layout/button.go:38-65 | definition: resizes, moves, presses and releases of any button are read; everything else is ignored |
| Buttons.ViewerInput | examples/imageviewer/button.go:39-59 | definition: resizes (through `image.Rect`) and left presses and releases are read; everything else, moves included, is ignored |
| Buttons.Run | examples/layout/button.go:37-66 | definition: the steps of the loop over a trace of events, outputs concatenated in order |
| Buttons.Button | examples/layout/button.go:37-68 | the loop's outputs are those of the event trace, then the draw channel closes |
| Buttons.ActionsNeedPresses | examples/layout/button.go:50-64 | a trace fires no more actions than it has presses, one fewer while held |
| Buttons.Click | examples/layout/button.go:39-64 | resize, press and release inside draw it up, then pressed, fire once, and draw it up again |
| Buttons.RightClickIgnored | examples/imageviewer/button.go:44-58 | the image viewer's button ignores the right button |
| Buttons.ViewerNeverHovered | examples/imageviewer/button.go:14-34 | the image viewer's button never sets `over`, so it is never drawn hovered |

## Left out

- Pixels: every `draw.Draw`, `NewRGBA` copy, `Redraw` and background fill. A flush is modelled as the order of the layers it composites, and a layer's image as its bounds.
- Goroutines, channel blocking and mutexes: each locked block or goroutine step is one atomic method. Interleavings between goroutines are not modelled, nor is the partial state a panic leaves in other goroutines.
- EventsChan.EventsChan.Receive: a receive that would block is not a step of the model; it requires something queued or a closed output.
- The Scroller's draw goroutine (layout/scroller.go:63-77) is not modelled. It runs each draw command on its own image, and sends a copy up only when the changed rectangle meets that image's bounds. When the Scroller's draw channel closes, it returns without closing the parent's draw channel, so closing a Scroller's draw never closes its parent.
- Scroller.Scrolling.Handle: one event at a time; the end of the parent's events is not a step. The event goroutine (layout/scroller.go:79-116) then returns without closing the channel the children read, so their events never close, as with the `RedrawIntercepter` in "## Findings".
- win/win.go and win/monitor.go, the GLFW window, are outside the core.
- The example programs other than the two buttons and the image viewer's splits are outside the core.
- `Event.Matches` and `Eventf` are thin wrappers over `fmt`.
- Dispatch.Sscan: a part that is not exactly a decimal integer leaves its target unchanged. `fmt.Sscan`'s acceptance of leading spaces, a '+' sign and trailing text, and its other verbs, are not modelled.
- Buttons.ViewerInput: the image viewer's button matches event strings with `Sscanf`. The model reads the typed event those strings come from, so `Sscanf`'s leniency is not modelled.
- `log.Printf` and `log.Println` are no-ops in the model (layout/grid.go:70-75, layout/mux.go:67).
- NamedLayout: the master-close path (layout/layout.go:144-151) and the end of the master's events (layout/layout.go:78-82) are not modelled, because neither can happen: the master env is private, nothing closes its draw channel, and the master's input is never closed.
- The nil-map panic of `GetEnv` after a master close is not modelled, because it depends on that unreachable close.
- LayoutMux.Mux.EventsEnd is modelled although the relay into `events` (layout/mux.go:51-55) never closes it, so as written it is never reached.
- The draw commands themselves are opaque values (`DrawCmd`). What they return is not modelled.
- Handler functions, split functions, `Lay` functions and the destination's image bounds are parameters. Their own code is not modelled.
- Integers are unbounded; Go's 64-bit `int` overflow is not modelled.
- Splits.Forward: the close of the rewritten events channel once the parent's events end is not represented.
- Mux.Mux.CloseMaster and LayoutMux.Mux.CloseMaster: on a panic the model keeps the sinks as they were, while Go has already closed the listed sinks before the one that panics; the panic ends the program, so nothing observes that state.

## Findings

| source | as written | input that shows it | evidently intended | confidence | as-written member | corrected member |
|---|---|---|---|---|---|---|
| mux.go:46-50 | when the parent's events end, every listed sink is closed but the list is kept; a later close of the master's draw closes the same sinks again | parent events end, then the master closes its draw: `close(eventsIn)` on a closed channel panics with "close of closed channel" | clear the list when closing the sinks, as the master's close does at mux.go:115 | not executed | Mux.ParentEndThenMasterClose | Mux.Mux.ParentEndClearing |
| layout/intercepter.go:29-39 | when the environment's events end, the loop returns without closing the channel it hands to the user | any trace that ends: `CloseEvents !in Intercept(es)` | close the user's channel after the loop, as env.go:27-29 promises an `Env` does | not executed | Intercepter.InterceptNeverCloses | Intercepter.InterceptClosingEnds |
| mux.go:120-128 | when the closing env is not in the list, the loop leaves `i` at the last index and removes the last listed sink | child 1 made, the master closes (list emptied), child 2 made (list `[2]`), child 1 closes: child 2 is dropped, `Removal([2], 1) == []` | remove nothing when the env is not listed (the same loop is at layout/mux.go:158-166) | not executed | Sinks.RemovalDropsStranger | Sinks.UnlistedRemovesOnlyId |
