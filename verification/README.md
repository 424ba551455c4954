# Periodic-table layout engine: a Dafny model

This project models the layout and transition core of a three.js
"periodic table" page (`dist/main.js`). Ten nodes are described by a flat
`table` array, five cells per node. Each node gets a target transform in
each of several layouts. A button press calls `transform(targets, 1000)`,
which clears the tween registry and starts new tweens that morph every node
toward its target.

The model covers:

- **Record decoding** (`Records`). The flat table is read in strides of five
  cells (`symbol, name, mass, column, row`), and each stride becomes one node
  numbered from 1. Indices past the end read `undefined`. A partial last
  stride still yields a node. `Flatten` is the inverse, and both round trips
  are proved.
- **JavaScript values** (`JsValues`, in values.dfy). These are table cells
  (string, integer, `undefined`), numbers as the layouts produce them
  (integer or NaN), and the string-to-number coercion that `*` applies.
- **Geometry** (`Geometry`, in geometry.dfy). Positions and Euler rotations
  are `Vec3`s, and a node's transform is an `Object3D`.
- **Integer layouts** (`Layouts`). The table layout maps `(column, row)` to
  `(column*140 - 1330, -row*180 + 990, 0)`. The grid layout maps node `i` to
  a 5 x 5 x N lattice with spacings 400/400/1000. Each layout has an inverse
  (`TableCell`, `GridIndex`). Injectivity is proved from these inverses;
  exact positions, bounds and lattice steps follow from the formulas.
- **Transition scheduling** (`Transition`). `transform` is a pure function
  from the old registry, the object count, the target list, the base
  duration and the supplied random draws to the new registry. It starts two
  quadratic-eased tweens per node, with durations `r*d + d`, followed by one
  `2d` timer that renders on update.
- **Start-up** (`Startup`). `Init` mirrors `init`. It runs the decode loop
  (`DecodeTable`), which also builds the table targets, then the grid loop
  (`BuildGrid`), then the first transition to the table layout.

Three behaviours of the code are modelled as written, although one might expect otherwise:

- A node whose column or row cell is missing or non-numeric is not reported
  as an error. JavaScript computes `undefined * 140 - 1330`, so the model
  gives that coordinate NaN (`TableTarget`).
- A target list shorter than the object list is not rejected up front. The
  loop throws a `TypeError` at the first missing target. By then the
  registry has already been cleared and the earlier nodes' tweens have been
  started, and no timer is added. `Transform` returns this as
  `Outcome(registry, threw: true)`.
- Grid positions are injective for every node count. The layer coordinate
  `floor(i/25)*1000 - 2000` never wraps, so this holds beyond 125 nodes too.

`Math.random` is replaced by a parameter. Draw `j` times task `j`, matching
the order of calls: the position tween of node `i` uses draw `2i`, and its
rotation tween uses draw `2i + 1`. The only precondition of `Transform`
is that enough draws are supplied, two per object; it stands for the
unlimited supply of `Math.random`, not for a demand of the source.

## Model

| member | source | states |
|---|---|---|
| `JsValues.NumeralRoundTrip` | dist/main.js:68-69 | A cell holding the decimal text of an integer coerces under `*` to exactly that integer |
| `JsValues.StringToNumber` | dist/main.js:68-69 | The coercion `*` applies to a string cell: the empty string is 0; a string that does not start with a digit or a minus sign is NaN; any integer result comes from an all-digit string (non-negative) or a minus sign followed by digits (non-positive) |
| `JsValues.ToNumber` | dist/main.js:68-69 | An `undefined` cell (an index past the end) coerces to NaN, and an integer cell to itself |
| `Records.StrideCount` | dist/main.js:39 | The loop stepping by 5 over n cells runs k times, where k is the least count with 5k >= n (so 5k < n + 5) |
| `Records.ElementAt` | dist/main.js:39-47 | The iteration starting at cell 5k builds the node numbered k + 1, as `(i / 5) + 1` labels it |
| `Records.ElementAtWindow` | dist/main.js:39-69 | Node k is numbered k + 1; its cells are the table's five cells at offset 5k when they all exist, and `undefined` wherever the window runs past the end |
| `Records.DecodedPrefix` | dist/main.js:39-72 | Nodes built one per stride, as many as the stride loop runs over the table, are exactly the decoded nodes |
| `Records.Elements` | dist/main.js:39-57 | Decoding yields ceil(\|table\|/5) nodes, one per stride |
| `Records.DecodeFlatten` | dist/main.js:39-57 | Decoding the flattening of nodes numbered 1..n gives back exactly those nodes |
| `Records.FlattenDecode` | dist/main.js:39-57 | Flattening decoded nodes gives back the table, padded with `undefined` to a multiple of five cells; nothing is lost or reordered |
| `Records.FlattenDecodeWhole` | dist/main.js:39-57 | A table of whole strides round-trips exactly through decoding |
| `Records.ShippedTableDecodes` | dist/main.js:7-18 | The shipped table, the flattening of the ten listed nodes, has 50 cells and decodes back to exactly those nodes, node k numbered k+1 |
| `Layouts.TablePosition` | dist/main.js:68-69 | A numeric column c gives x with x + 1330 = 140c, a numeric row r gives y with 990 - y = 180r, z stays 0; a NaN column or row gives a NaN x or y and nothing else does |
| `Layouts.TableTarget` | dist/main.js:67-69 | A table target has zero rotation and z = 0; its x is NaN exactly when the column cell is not numeric, and its y exactly when the row cell is not |
| `Layouts.TableLayout` | dist/main.js:70 | The table target list has one entry per node |
| `Layouts.LaidOutPrefix` | dist/main.js:67-70 | Targets pushed one per node, in node order, are exactly the table layout of those nodes |
| `Layouts.TableCellInverts` | dist/main.js:68-69 | The cell (column, row) is recovered from its table position |
| `Layouts.TableCellSound` | dist/main.js:68-69 | Any position that the inverse maps to a cell is exactly that cell's table position |
| `Layouts.TableLayoutInjective` | dist/main.js:68-69 | Distinct numeric cells are placed at distinct positions |
| `Layouts.NumeralCellsLayOutAlike` | dist/main.js:68-69 | Column and row cells written as numeral strings lay out like the numbers they spell |
| `Layouts.ShippedTableLayout` | dist/main.js:8-18 | In the table layout of the ten shipped nodes, node 0 goes to (-1190, 810, 0) and node 1 to (1190, 810, 0), and every node has x in [-1190, 1190] and y in {810, 630} |
| `Layouts.InBandOnTopRows` | dist/main.js:68-69 | A node with a numeric column in 1..18 and a numeric row in 1..2 is laid out with x in [-1190, 1190] and y in {810, 630} |
| `Layouts.GridPosition` | dist/main.js:108-110 | Grid x and y are always in {-800, -400, 0, 400, 800}; z is -2000 plus a multiple of 1000; z = -2000 exactly for the first 25 nodes |
| `Layouts.GridTarget` | dist/main.js:107-111 | Grid targets keep the zero rotation of a fresh Object3D |
| `Layouts.GridLayout` | dist/main.js:105-111 | The grid target list has one entry per node |
| `Layouts.GridIndexInverts` | dist/main.js:108-110 | Every node index is recovered from its grid position |
| `Layouts.GridIndexSound` | dist/main.js:108-110 | Any position that the inverse maps to an index is exactly that index's grid position |
| `Layouts.GridInjective` | dist/main.js:108-110 | Distinct node indices get distinct grid positions, for all indices |
| `Layouts.GridStep` | dist/main.js:108-110 | Within a row, the next node is +400 in x with the same y and z. At a row end, x wraps from 800 to -800 and y drops 400. At a layer end, y wraps from -800 to 800 and z grows 1000 |
| `Layouts.GridFirstNodes` | dist/main.js:108-110 | Node 0 is at (-800, 800, -2000) and node 1 at (-400, 800, -2000) |
| `Transition.StartTweens` | dist/main.js:177-192 | For n objects the loop starts 2n tweens. Task 2i is node i's position tween toward targets[i].position and task 2i+1 its rotation tween toward targets[i].rotation, each quadratic-eased and timed `r*d + d` by its own draw |
| `Transition.Transform` | dist/main.js:173-199 | The call throws iff there are fewer targets than objects. Otherwise the registry is the 2n loop tweens followed by one timer of 2d that renders on update. On a throw, the registry holds only the tweens started before the missing target |
| `Transition.TransformDiscardsPending` | dist/main.js:175 | The tasks pending before the call have no effect on the resulting registry |
| `Transition.InterruptionKeepsOnlyLatest` | dist/main.js:175-197 | A transition that interrupts another gives the same registry as one started on an idle registry; nothing of the first survives |
| `Transition.TransformDrivesObject` | dist/main.js:177-190 | In a completed call, object i gets exactly one position tween, aimed at targets[i].position, and exactly one rotation tween, aimed at targets[i].rotation |
| `Transition.TransformTweensAndTimer` | dist/main.js:177-197 | In a completed call, no tween drives an object beyond the given count and every tween is quadratic-eased. The only timer is the last task, lasting 2d and rendering on update |
| `Transition.TransformTaskSet` | dist/main.js:175-197 | The whole registry after a completed call is 2n+1 tasks: for each object one position and one rotation tween, and nothing else but the closing timer |
| `Transition.JitteredBounds` | dist/main.js:183 | A draw in [0,1) turns a positive base duration d into a duration in [d, 2d) |
| `Transition.TransformDurations` | dist/main.js:183-195 | With draws in [0,1) and d > 0, every tween lasts between d and 2d and the timer exactly 2d |
| `Transition.NoObjectsOnlyTimer` | dist/main.js:177-197 | With no objects, only the 2d render timer is scheduled |
| `Startup.DecodeTable` | dist/main.js:39-72 | The stride loop builds exactly the decoded nodes, and alongside them their table layout |
| `Startup.BuildGrid` | dist/main.js:105-113 | The grid loop over n objects builds exactly the grid layout of n nodes |
| `Startup.Init` | dist/main.js:39-161 | The decode loop (lines 39-72) builds exactly the decoded nodes with index-aligned table targets, and the grid loop (lines 105-113) builds index-aligned grid targets. The first transition to the table layout (line 161) then schedules 2n+1 tasks without throwing |
| `Startup.LayoutButtonsNeverThrow` | dist/main.js:125-159 | On an initialised page, transitioning to the table or grid layout never throws and schedules 2n tweens plus the 2000 ms timer |
| `Startup.ShippedStartUp` | dist/main.js:161 | The shipped table decodes to the ten listed nodes, and the start-up transition to their table layout schedules 21 tasks. Node 0's position tween aims at (-1190, 810, 0), node 1's at (1190, 810, 0), and the last task is the 2000 ms render timer |

## Left out

- Sphere and helix layouts (dist/main.js:75-102). They use floating-point `acos`, `sqrt` and trigonometry through `setFromSphericalCoords` and `setFromCylindricalCoords`, and three.js `lookAt`, none of which can be stated exactly over integers. Their targets are not `Object3D` values of this model, and their buttons are not modelled.
- Tween-library internals: capture of start values, per-frame interpolation, the `Quadratic.InOut` curve itself, completion, `TWEEN.update` and the implementation of `removeAll` (dist/main.js:175, 184, 189, 213). A task records only its node, property, end value, duration and easing name, and a timer records its duration and render flag.
- Completion and resting state. Which value a node holds after the tweens run, the render calls made during ticking, and the moment the timer fires all depend on the library's ticking, which is not modelled. The model proves instead what is left to tick: after any call, only that call's tasks are in the registry, aimed at its targets, and none lasts longer than the `2d` timer.
- `Math.random`, including the initial random scatter of node positions (dist/main.js:61-63). Draws are parameters of `Transform` and `Init`, and the scatter is not modelled because no task depends on it.
- DOM element construction and styling (dist/main.js:41-58). The decoded node keeps the cells that fill the element; the number label is the node's `number`.
- Renderer, camera, TrackballControls, button event wiring, window resize and the `requestAnimationFrame` loop (dist/main.js:34-36, 115-163, 201-222). These are I/O and UI plumbing. The render callback appears only as the timer's `renderOnUpdate` flag.
- `JsValues.StringToNumber`: coerces only the empty string, digit runs, and a minus sign followed by digits. Strings that JavaScript also converts, such as those with whitespace, `+`, a fraction, an exponent, hex or `Infinity`, read as NaN here. Numbers are integers or NaN, because the shipped table holds integers in every column and row cell.
- `Layouts.TableLayoutInjective`: proved over exact integers. JavaScript numbers are IEEE doubles, so the statement carries over only while \|column·140\| and \|row·180\| stay below 2^53. Beyond that, rounding can merge distinct cells: columns 16483174636176018 and 16483174636176020 land on the same x. Every table cell of the page is at most 18.
- `Layouts.TableCellInverts`: the same integer assumption. The recovered cell is exact only while \|column·140\| and \|row·180\| stay below 2^53.
- `Layouts.TableCellSound`: the same integer assumption, with the same 2^53 bound on the coordinates.
- `Layouts.TablePosition`: computes exact integer products and sums. The double arithmetic of `*`, `-` and `+` agrees with them only below 2^53.
- `JsValues.NumeralRoundTrip`: exact for every integer, whereas a JavaScript number keeps only integers up to 2^53 exactly. Also, JavaScript writes integers of 10^21 and above in exponent notation, which `IntToString` does not produce.
- `Transition.JitteredBounds`: durations are modelled as exact reals, where a draw below 1 keeps `r*d + d` strictly below `2d`. JavaScript computes in IEEE doubles, and there `r*d + d` can round up to exactly `2d`: the draw 1 - 2^-53 with d = 1000 gives 2000. In JavaScript the interval is therefore [d, 2d], and the lower bound still holds.
- `Transition.TransformDurations`: the same real-number assumption. In JavaScript a tween can last exactly `2d`, as long as the closing timer, but never longer.
