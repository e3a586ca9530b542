# mvue: a verified model of the reactivity engine and the template binder

mvue is a minimal Vue-like library in a single file, `mvue.js`. It has two cooperating halves:

- **The reactivity engine** instruments the data object:
  - `observe`, `Observer.walk` and `defineReative` give every property its own `Dep`, which is an append-only list of watchers. The getter and setter close over the property's value.
  - A getter read appends the process-wide `Dep.target` to the property's dep when that slot is set.
  - A setter write that is not `===` to the current value stores the value and instruments it if it is an object. It then has `notify` call `update` on every watcher of the dep, in subscription order.
  - `proxy` forwards the view model's top-level keys to `$data`.
  - A `Watcher` sets `Dep.target` to itself, reads its key once, and clears the slot.
- **The template binder** (`Compiler`) walks the children of the root element depth first, in pre-order:
  - An element node compiles its attributes. `m-text`, `m-html`, `m-model` and `m-if` each run their updater once and create one watcher. `@event` attributes attach a listener that calls a method, or warn when the method is missing.
  - A text node matching `/\{\{(.*)\}\}/` binds its raw first capture group to `text`.

The model is split into five modules, plus a module of small sequence lemmas (`collections.dfy`):

- `Values` (`values.dfy`): JavaScript values as a datatype.
  - Objects are references into a heap.
  - `===` is datatype equality.
  - Also defines truthiness and the string conversion that DOM writes perform.
- `Dom` (`dom.dfy`): the mutable part of a page node (name, text, HTML, display, value, listeners) and the four updaters.
- `Template` and `Traversal` (`template.dfy`):
  - the static template tree;
  - node and attribute classification and the closed `text | html | model | if` dispatch that replaces `this[dir + "Loader"]`;
  - the interpolation capture, specified against a leftmost-longest regular-expression match;
  - the pre-order listing `Descendants`.
- `Reactivity` (`reactivity.dfy`): the class `ViewModel`. Its fields are:
  - the heap of objects;
  - the deps, one sequence of watcher ids per instrumented property;
  - `Dep.target`;
  - the watcher table;
  - the page state;
  - a ghost trace of the `update` calls.

  Its methods are the getter, the setter, `observe`/`walk`/`defineReative`, `notify`, `Watcher` creation and `update`, the updaters and `proxy`. Each method is proved against specification functions such as `Collected`, `Reset`, `Reach` and `Refreshed`. `Valid()` says that deps name existing properties and existing watchers, that `Dep.target` is null between operations, and that every watcher in a dep reads that dep's top-level key. Every method preserves it. The instrumentation methods, the getter and the updaters also run while `Dep.target` is set, inside `new Watcher`; there they keep the weaker `Wf()`, and they keep `Valid()` whenever they start from it.
- `Compile` (`compile.dfy`): the class `Compiler`, whose methods follow the source's `compile`, `compileElement`, `compileText`, the loaders, `update` and `bindEvent`.
  - Each method is proved equal to a fold over the visited nodes (`Compiled`, `AttrsCompiled`).
  - Lemmas then state what the fold does: the watchers it creates and their number, the subscriptions it makes (each new watcher exactly once, in order), the warnings it prints, and the page nodes it leaves untouched.

## Model

| member | source | states |
|---|---|---|
| Values.NatToDecimal | mvue.js:142-144 | The string a number becomes when written to the page is all digits, has no leading zero, and reads back as the number. |
| Dom.Visibility | mvue.js:152-154 | The `if` updater writes "block" exactly when the value is truthy and "none" exactly when it is not. |
| Dom.Updated | mvue.js:141-168 | Each updater changes one thing. `text` and `html` write the value's string form, where `textContent`, being nullable, turns `undefined` and `null` into the empty text. `if` writes the visibility. `model` acts only on an INPUT node, where it writes the value and appends one more `input` write-back listener. The node name never changes. |
| Dom.MissingValueShown | mvue.js:141-148 | A key that reads `undefined` or `null` leaves a `text` binding's node empty. `html` shows "undefined" for `undefined` and the empty string for `null`. |
| Template.DirOfRecognises | mvue.js:83-102 | Exactly the keywords text, html, model and if have a loader, and each maps back to its own keyword. |
| Template.KeywordDispatches | mvue.js:115 | The dispatch on `dir + "Loader"` sends each directive's keyword to that directive. |
| Template.DirectiveOfRecognises | mvue.js:112-116 | An attribute installs a directive exactly when its name starts with "m-" and the rest is one of the four keywords. The name is then "m-" followed by that keyword. |
| Compile.PrefixesDisjoint | mvue.js:67-74 | No attribute name is both a directive (prefix "m-") and an event (prefix "@"). |
| Template.LastCloseFinds | mvue.js:63 | Scanning from a `{{` finds the last `}}` that starts on the same line, or none when there is none. |
| Template.SearchFinds | mvue.js:63 | The search succeeds exactly when the pattern matches somewhere. It then returns the group of the leftmost-longest match. |
| Template.CaptureIsRegexGroup | mvue.js:62-64 | `isInter`'s test succeeds exactly when some "{{", single-line text, "}}" occurs. The capture is then the untrimmed text between the leftmost opening and the longest closing on that line. |
| Template.SingleLineCapture | mvue.js:77-78 | On single-line text the expression bound is everything between the first "{{" and the last "}}". |
| Traversal.ForestSplit | mvue.js:41-52 | The visit order lists the earlier siblings, then a child, then that child's own subtree, then the later siblings. |
| Traversal.DescendantsPreOrder | mvue.js:38-53 | Every visited node is immediately followed by exactly its own descendants, so parents come before children. |
| Traversal.RootNotVisited | mvue.js:38-53 | `compile(el)` never processes `el` itself. |
| Traversal.ChildrenVisited | mvue.js:50-52 | Every child of the root or of a visited node is visited. |
| Traversal.DescendantsCount | mvue.js:38-53 | The number of visits equals the number of nodes below the root. Together with ChildrenVisited, each node is visited once. |
| Reactivity.Collected | mvue.js:249-251 | A read appends `Dep.target` to the property's dep, once per read and without de-duplication. It changes no other dep, and with a null target it changes nothing. |
| Reactivity.Reset | mvue.js:242-246 | Instrumenting properties gives each a new, empty dep and keeps every other dep. |
| Reactivity.ReachBelow | mvue.js:234-243 | `observe(v)` only instruments existing properties of objects ranked at or below `v`. |
| Reactivity.NotReached | mvue.js:253-257 | Observing a property's new value never renews that property's own dep, so the notify that follows still reaches the old subscribers. |
| Reactivity.Refreshed | mvue.js:215-217 | Notifying a list of watchers keeps the page's node set and leaves every node no watcher in the list is bound to unchanged. |
| Reactivity.RefreshedAt | mvue.js:199-201 | When all notified watchers read the same value, each node ends with that value, converted as each field converts it, in every field some watcher binds, and keeps its other fields. |
| Reactivity.RefreshedListeners | mvue.js:157-168 | Each notified `model` watcher on an INPUT node adds one more `input` write-back listener, in notify order. |
| Reactivity.RefreshedName | mvue.js:141-168 | No updater changes a node's name. |
| Reactivity.DepsWfCollected | mvue.js:210-212 | Appending an existing watcher keeps every dep listing only existing watchers. |
| Reactivity.CoherentSubscribed | mvue.js:193-196 | Subscribing a new watcher that reads `key` keeps every dep listing only watchers that read that dep's key. |
| Reactivity.ViewModel.constructor | mvue.js:3-5 | A new view model holds the data object uninstrumented and unproxied, with no deps and no watchers. |
| Reactivity.ViewModel.Observe | mvue.js:234-240 | `observe` does nothing for a non-object. For an object it renews exactly the deps of the properties reachable through it. |
| Reactivity.ViewModel.Walk | mvue.js:20-22 | Walking an object instruments every own key and, recursively, the objects they hold. |
| Reactivity.ViewModel.DefineReactive | mvue.js:242-247 | `defineReative(o, k)` gives `o[k]` a new empty dep, after observing its value. |
| Reactivity.ViewModel.GetProp | mvue.js:249-252 | The getter returns the current value and updates the deps as `Collected` says. |
| Reactivity.ViewModel.SetProp | mvue.js:253-262 | A write `===` to the current value leaves the deps, the page and the update trace unchanged. Any other write stores the value, renews the deps of the new value's properties, and calls `update` once on each old subscriber in order. Afterwards every such subscriber reads the new value. |
| Reactivity.ViewModel.Assign | mvue.js:255 | The store into the closure cell changes exactly that property. |
| Reactivity.ViewModel.Renew | mvue.js:256-260 | After the store, the setter observes the new value, then notifies the old subscribers in order. |
| Reactivity.ViewModel.Notify | mvue.js:215-217 | `notify` runs every watcher of the dep in subscription order. The page becomes `Refreshed` for those watchers, the trace records each id once in order, and no dep grows. |
| Reactivity.ViewModel.Update | mvue.js:199-201 | `update` re-reads its key while `Dep.target` is null and re-runs its updater on its node. It changes no dep. |
| Reactivity.ViewModel.ApplyUpdater | mvue.js:141-168 | One updater run changes only its node, as `Updated` says. |
| Reactivity.ViewModel.Listen | mvue.js:175-181 | `addEventListener` appends one listener to one node. |
| Reactivity.ViewModel.NewWatcher | mvue.js:188-197 | Creating a watcher appends it to the watcher table and subscribes it once to its key's dep. `Dep.target` is null again afterwards. |
| Reactivity.ViewModel.Proxy | mvue.js:221-232 | After `proxy`, every key of `$data` is a key of the view model that reads `$data[key]`. |
| Reactivity.ViewModel.Get | mvue.js:224-226 | `vm[key]` reads through the proxy and collects when `Dep.target` is set. A key that is not proxied is a plain property read. |
| Reactivity.ViewModel.Set | mvue.js:227-229 | `vm[key] = v` on a proxied key is the setter of `$data[key]`. On another key it only sets a plain property. |
| Reactivity.ViewModel.WriteBackInput | mvue.js:162-164 | An `input` event stores the typed text in the node's value, then the listener writes it, as a string, to `vm[exp]`. On a proxied key this is the setter's whole effect (`Wrote`), starting from the page with the typed value: an instrumented key whose value changed renews deps, updates its subscribers in order and refreshes the page. On another key only the plain property and the typed value change. |
| Compile.StepParts | mvue.js:108-128 | One attribute adds only its own binding to the watchers and subscribes only when it is a directive. It warns exactly when it is an event whose method is missing, and changes only its own element. |
| Compile.EventAttr | mvue.js:118-126 | An `@event` attribute with a missing method only warns. With the method present it appends one listener calling that method, unless the event type is empty (mvue.js:171-174). It never creates a watcher. |
| Compile.AttrsWatchers | mvue.js:105-129 | An element's attributes create their bindings in attribute order. |
| Compile.AttrBindingsCount | mvue.js:112-116 | An element gets exactly one watcher per attribute with a loader, and none for any other `m-` attribute. |
| Compile.NodeParts | mvue.js:41-48 | One visited node adds its own bindings and missing-method warnings, and changes only its own page node. |
| Compile.CompiledWatchers | mvue.js:38-53 | Compiling appends exactly the bindings of the visited nodes, in visit order. |
| Compile.BindingCount | mvue.js:38-53 | The number of watchers created under a node is one per interpolation text node plus one per directive attribute with a loader, counted over the tree. |
| Compile.ForestBindingCount | mvue.js:38-53 | The same count for a list of sibling subtrees. |
| Compile.AttrsDeps | mvue.js:132-138 | An element's attributes subscribe their new watchers, in creation order. |
| Compile.NodeDeps | mvue.js:77-78 | One visited node subscribes exactly its own new watchers. |
| Compile.CompiledDeps | mvue.js:132-138 | After compiling, the deps are the old deps with each new watcher subscribed once to its key, in creation order. The initial updater read registers nothing. |
| Compile.SubscribedAllAt | mvue.js:193-196 | The dep of a proxied top-level key gains exactly the ids of the new watchers on that key. Every other dep is unchanged. |
| Compile.PositionsExact | mvue.js:210-212 | Those ids are exactly the new watchers reading the key, each once, in increasing order. |
| Compile.AttrsWarnings | mvue.js:118-124 | An element warns once per `@event` attribute with a missing method, in order, and still processes its remaining attributes. |
| Compile.CompiledWarnings | mvue.js:118-124 | Compiling prints one warning per `@event` attribute with a missing method, in visit order, and no other warning. |
| Compile.CompiledFrame | mvue.js:38-53 | Compiling keeps the page's node set and leaves a page node untouched unless it is visited. |
| Compile.AttrsFrame | mvue.js:105-129 | Compiling an element's attributes touches no other node. |
| Compile.CompiledSubtree | mvue.js:50-52 | Compiling a child and then its subtree is the fold over that part of the visit order. |
| Compile.Compiler.constructor | mvue.js:27-35 | `new Compiler(vm, el)` compiles the root's descendants when the selector found a root, and does nothing otherwise. |
| Compile.Compiler.Compile | mvue.js:38-53 | `compile(el)` equals the fold over `Descendants(el)` in visit order and keeps the view model valid. |
| Compile.Compiler.CompileChild | mvue.js:41-52 | One iteration handles the child, then its subtree when it has children. |
| Compile.Compiler.CompileNode | mvue.js:42-48 | An element compiles its attributes, an interpolation compiles its text, and any other node does nothing. |
| Compile.Compiler.CompileElement | mvue.js:105-129 | The attributes are compiled in order. |
| Compile.Compiler.CompileAttr | mvue.js:108-128 | One attribute: the loader dispatch, then the event check. |
| Compile.Compiler.CompileText | mvue.js:77-80 | An interpolation binds its capture to `text`. |
| Compile.Compiler.Load | mvue.js:83-102 | A keyword with a loader binds with that directive. Any other keyword does nothing. |
| Compile.Compiler.Update | mvue.js:132-139 | `update` runs the updater with the current value, read while `Dep.target` is null, then creates one watcher subscribed to its key. |
| Compile.Compiler.BindEvent | mvue.js:171-182 | An empty event type attaches nothing. Otherwise one listener calling the handler is appended. |

## Left out

- The `Vue` constructor (mvue.js:1-12) is not modelled as one operation. It only wires the options into `ViewModel.constructor`, `Observe`, `Proxy` and `Compiler.constructor`, each of which is modelled.
- `document.querySelector` is replaced by an optional root node given to the compiler.
- Real event dispatch and the bodies of user methods are left out. A listener is recorded as an event type and an action: a method name, or a write-back to `vm[exp]`.
- Writing `innerHTML` or `textContent` does not replace the node's children in the model. HTML parsing is host behaviour. In the source, `m-text` and `m-html` run before the compiler walks `childNodes`, so the walk sees the children they wrote, not the template's. On `<p m-text="a"><b m-if="c"></b></p>` the source creates one watcher, for `a`, but the model compiles `<b>` too and creates two; `ChildrenVisited` and `BindingCount` describe the template's children. An `m-html` value that contains directives is compiled by the source and not by the model.
- `console.log` output is left out. `console.warn` is recorded as the sequence of missing method names.
- Numbers are integers. Floating point, NaN, `-0` and exponent notation in the number-to-string conversion are not modelled.
- Strings are sequences of characters. UTF-16 surrogates are not distinguished.
- Inherited properties are not modelled. A method named like an `Object.prototype` member (`toString`) counts as missing unless it is in the method set, and `vm[exp]` for such a name reads `undefined`.
- The view model's own non-data properties (`$data`, `$options`, `methods`) read through `vm[exp]` are not modelled. Any key that is not proxied reads a plain property set by an earlier write-back, or `undefined`.
- A missing `methods` option, which makes the source throw a TypeError, is not modelled. The method set may be empty instead. A method value that is not a function is not modelled either.
- The order of `Object.keys` is not modelled: it does not change which properties are instrumented.
- Reactivity.ViewModel.SetProp: requires the heap to stay acyclic after the write, and `Wf()` keeps every heap acyclic, so no cyclic object graph is representable. This also excludes plain writes that close a cycle through properties that were never instrumented (`vm.user.self = vm.user` on a new key), which the source performs without error. The source fails only when `observe` later walks such a cycle, where it recurses without end.
- Template.CaptureIsRegexGroup: regular-expression semantics are modelled for this one pattern only. `.` excludes the four ECMAScript line terminators.
- Class instances such as `Dep` and `Watcher` are represented by ids and sequences, not object identity. Nothing in the source compares them.
