/** What the `Greeting` composable shows for one `NameState`, and the list of
    rows `NameList` lays out, one per state in list order. */
module Greeting {
  import opened Names

  /** A row as displayed: its text and whether it is drawn in the selected colour. */
  datatype Row = Row(text: string, emphasised: bool)

  /** `"Hello ${name.value}!"`. */
  function GreetingText(value: string): (t: string)
    ensures |t| == |value| + 7
    ensures t[..6] == "Hello " && t[|t| - 1] == '!'
    ensures t[6..|t| - 1] == value
  {
    "Hello " + value + "!"
  }

  /** The greeting text determines the label it greets. */
  lemma GreetingTextInjective(a: string, b: string)
    ensures GreetingText(a) == GreetingText(b) ==> a == b
  {
  }

  function RenderRow(n: NameState): (r: Row)
    ensures r.emphasised <==> n.isSelected
    ensures |r.text| == |n.value| + 7 && r.text[6..|r.text| - 1] == n.value
    ensures r.text[..6] == "Hello " && r.text[|r.text| - 1] == '!'
  {
    Row(GreetingText(n.value), n.isSelected)
  }

  /** `LazyColumn` over `items(names)`: one row per state, in list order. */
  function RenderList(s: seq<NameState>): (rows: seq<Row>)
    ensures |rows| == |s|
    ensures forall i :: 0 <= i < |s| ==> rows[i] == RenderRow(s[i])
  {
    seq(|s|, i requires 0 <= i < |s| => RenderRow(s[i]))
  }

  /** Toggling row `id` changes only that row, and only its colour, in the rows
      rendered from the state. */
  lemma {:induction false} RenderAfterToggle(s: seq<NameState>, id: int)
    requires 0 <= id < |s|
    ensures forall j :: 0 <= j < |s| && j != id ==> RenderList(Toggle(s, id))[j] == RenderList(s)[j]
    ensures RenderList(Toggle(s, id))[id].text == RenderList(s)[id].text
    ensures RenderList(Toggle(s, id))[id].emphasised != RenderList(s)[id].emphasised
  {
  }
}
