/** The mutable part of a page node, and the four updaters that write it. */
module Dom {
  import opened Values

  /** The directive keywords that have a loader and an updater. */
  datatype Dir = Text | Html | Model | If

  /** What a listener attached by the binder does when its event fires:
      write the input's value back into the view model, or call a named method. */
  datatype Action = WriteBack(exp: string) | Invoke(handler: string)

  datatype Listener = Listener(event: string, action: Action)

  /** The fields of a page node that bindings read or write. `name` is the node's
      `nodeName` and never changes; `display` is its `style.display`. */
  datatype NodeState = NodeState(
    name: string,
    text: string,
    html: string,
    display: string,
    value: string,
    listeners: seq<Listener>)

  /** The `display` value the `if` updater writes. */
  function Visibility(v: Value): (d: string)
    ensures d == "block" <==> Truthy(v)
    ensures d == "none" <==> !Truthy(v)
  {
    if Truthy(v) then "block" else "none"
  }

  /** One updater run on a node with value `v` for expression `exp`:
      `text` sets textContent, `html` sets innerHTML, `if` sets display, and
      `model`, on an INPUT node only, sets its value and adds another `input`
      listener that writes the input back to `exp`. */
  function Updated(st: NodeState, dir: Dir, v: Value, exp: string): (r: NodeState)
    ensures r.name == st.name
    ensures r.text == (if dir == Text then TextString(v) else st.text)
    ensures r.html == (if dir == Html then DomString(v) else st.html)
    ensures r.display == (if dir == If then Visibility(v) else st.display)
    ensures r.value == (if dir == Model && st.name == "INPUT" then DomString(v) else st.value)
    ensures r.listeners ==
              if dir == Model && st.name == "INPUT"
              then st.listeners + [Listener("input", WriteBack(exp))]
              else st.listeners
  {
    match dir
    case Text => st.(text := TextString(v))
    case Html => st.(html := DomString(v))
    case If => st.(display := Visibility(v))
    case Model =>
      if st.name == "INPUT" then
        st.(value := DomString(v), listeners := st.listeners + [Listener("input", WriteBack(exp))])
      else st
  }

  /** A binding whose key reads `undefined` or `null` leaves the text node empty,
      but writes the word "undefined" into `innerHTML` for `undefined`. */
  lemma MissingValueShown(st: NodeState, exp: string)
    ensures Updated(st, Text, Undefined, exp).text == ""
    ensures Updated(st, Text, Null, exp).text == ""
    ensures Updated(st, Html, Undefined, exp).html == "undefined"
    ensures Updated(st, Html, Null, exp).html == ""
  {
  }
}
