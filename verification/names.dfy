/** The selectable list: `NameState` records, the `ListViewModel` that builds
    them from labels and toggles one by position, and the find-and-toggle click
    handler of `MyScreenContent`, which looks the clicked row up by id. */
module Names {
  import opened Wrappers

  /** One row of the list. Only `isSelected` ever changes. */
  datatype NameState = NameState(id: int, value: string, isSelected: bool)

  /** The shape `mapIndexed` gives a list, which the view model relies on:
      the element at position i has id i. */
  predicate IdsArePositions(s: seq<NameState>) {
    forall i :: 0 <= i < |s| ==> s[i].id == i
  }

  predicate NoneSelected(s: seq<NameState>) {
    forall i :: 0 <= i < |s| ==> !s[i].isSelected
  }

  /** The labels of a list, in order. */
  function Values(s: seq<NameState>): (vs: seq<string>)
    ensures |vs| == |s|
    ensures forall i :: 0 <= i < |s| ==> vs[i] == s[i].value
  {
    seq(|s|, i requires 0 <= i < |s| => s[i].value)
  }

  /** The positions of the selected rows. */
  function Selected(s: seq<NameState>): set<int> {
    set i | 0 <= i < |s| && s[i].isSelected
  }

  /** `names.mapIndexed { index, name -> NameState(index, name) }`: the list is
      extended one label at a time, each new row taking its index as id. */
  function FromLabels(labels: seq<string>): (s: seq<NameState>)
    ensures |s| == |labels|
    ensures IdsArePositions(s)
    ensures NoneSelected(s)
    ensures forall i :: 0 <= i < |s| ==> s[i].value == labels[i]
    decreases |labels|
  {
    if |labels| == 0 then []
    else
      var n := |labels| - 1;
      FromLabels(labels[..n]) + [NameState(n, labels[n], false)]
  }

  /** Building from labels and reading the labels back gives the labels. */
  lemma FromLabelsValues(labels: seq<string>)
    ensures Values(FromLabels(labels)) == labels
  {
  }

  /** Conversely, any list with ids at their positions and nothing selected is
      exactly the list its own labels build. */
  lemma FromLabelsUnique(s: seq<NameState>)
    requires IdsArePositions(s) && NoneSelected(s)
    ensures FromLabels(Values(s)) == s
  {
  }

  function Flip(n: NameState): (m: NameState)
    ensures m.id == n.id && m.value == n.value
    ensures m.isSelected != n.isSelected
  {
    n.(isSelected := !n.isSelected)
  }

  /** `ListViewModel.onClick(id)` on an id that indexes the list: the row at
      position `id` (not the row whose id field is `id`) has its flag flipped. */
  function Toggle(s: seq<NameState>, id: int): (r: seq<NameState>)
    requires 0 <= id < |s|
    ensures |r| == |s|
    ensures r[id].isSelected == !s[id].isSelected
    ensures forall j :: 0 <= j < |s| ==> r[j].id == s[j].id && r[j].value == s[j].value
    ensures forall j :: 0 <= j < |s| && j != id ==> r[j] == s[j]
  {
    s[id := Flip(s[id])]
  }

  /** The outcome of `ListViewModel.onClick`: the updated list, or the
      `IndexOutOfBoundsException` that indexing a Kotlin list out of range throws. */
  datatype ClickResult =
    | Updated(names: seq<NameState>)
    | IndexOutOfBounds(index: int, size: int)

  function OnClick(s: seq<NameState>, id: int): (r: ClickResult)
    ensures r.IndexOutOfBounds? <==> !(0 <= id < |s|)
    ensures r.IndexOutOfBounds? ==> r.index == id && r.size == |s|
    ensures r.Updated? ==> Toggle(s, id) == r.names
  {
    if 0 <= id < |s| then Updated(Toggle(s, id)) else IndexOutOfBounds(id, |s|)
  }

  /** Clicking the same row twice restores the list. */
  lemma ToggleInvolution(s: seq<NameState>, id: int)
    requires 0 <= id < |s|
    ensures Toggle(Toggle(s, id), id) == s
  {
  }

  /** The selected positions change by exactly the toggled one. */
  lemma ToggleSelected(s: seq<NameState>, id: int)
    requires 0 <= id < |s|
    ensures Selected(Toggle(s, id)) == if id in Selected(s) then Selected(s) - {id} else Selected(s) + {id}
  {
  }

  /** Toggling keeps ids at their positions and leaves the labels alone. */
  lemma TogglePreserves(s: seq<NameState>, id: int)
    requires 0 <= id < |s|
    ensures IdsArePositions(s) ==> IdsArePositions(Toggle(s, id))
    ensures Values(Toggle(s, id)) == Values(s)
  {
  }

  /** A run of `onClick` calls, stopping at the first one that throws. */
  function OnClicks(s: seq<NameState>, ids: seq<int>): ClickResult
    decreases |ids|
  {
    if |ids| == 0 then Updated(s)
    else match OnClick(s, ids[0])
      case Updated(t) => OnClicks(t, ids[1..])
      case IndexOutOfBounds(i, n) => IndexOutOfBounds(i, n)
  }

  /** A run of clicks succeeds exactly when every id indexes the list; when it
      does, the list keeps its length, its labels and its ids-at-positions shape. */
  lemma {:induction false} OnClicksInvariant(s: seq<NameState>, ids: seq<int>)
    ensures OnClicks(s, ids).Updated? <==> forall k :: 0 <= k < |ids| ==> 0 <= ids[k] < |s|
    ensures OnClicks(s, ids).IndexOutOfBounds? ==> OnClicks(s, ids).size == |s|
    ensures OnClicks(s, ids).Updated? ==>
      && |OnClicks(s, ids).names| == |s|
      && Values(OnClicks(s, ids).names) == Values(s)
      && (IdsArePositions(s) ==> IdsArePositions(OnClicks(s, ids).names))
    decreases |ids|
  {
    if |ids| > 0 {
      if 0 <= ids[0] < |s| {
        var t := Toggle(s, ids[0]);
        TogglePreserves(s, ids[0]);
        OnClicksInvariant(t, ids[1..]);
        assert forall k :: 1 <= k < |ids| ==> ids[k] == ids[1..][k - 1];
      }
    }
  }

  /** Kotlin's `find { it.id == id }`: the position of the first row with that id. */
  function FindFirst(s: seq<NameState>, id: int): (r: Option<nat>)
    ensures r.Some? ==> r.value < |s| && s[r.value].id == id
    ensures r.Some? ==> forall j :: 0 <= j < r.value ==> s[j].id != id
    ensures r.None? ==> forall j :: 0 <= j < |s| ==> s[j].id != id
    decreases |s|
  {
    if |s| == 0 then None
    else if s[0].id == id then Some(0)
    else match FindFirst(s[1..], id)
      case None => None
      case Some(k) => Some(k + 1)
  }

  /** The click handler `MyScreenContent` passes to its rows: flip the first row
      whose id matches the clicked row's id; do nothing if none does. */
  function ScreenClick(s: seq<NameState>, clicked: NameState): (r: seq<NameState>)
    ensures |r| == |s|
    ensures Values(r) == Values(s)
    ensures IdsArePositions(s) ==> IdsArePositions(r)
    ensures (forall j :: 0 <= j < |s| ==> s[j].id != clicked.id) ==> r == s
  {
    match FindFirst(s, clicked.id)
    case None => s
    case Some(k) => TogglePreserves(s, k); Toggle(s, k)
  }

  /** The screen click flips the first row whose id matches, and no other. */
  lemma ScreenClickFlipsFirst(s: seq<NameState>, clicked: NameState, i: int)
    requires 0 <= i < |s| && s[i].id == clicked.id
    requires forall j :: 0 <= j < i ==> s[j].id != clicked.id
    ensures ScreenClick(s, clicked) == Toggle(s, i)
  {
  }

  /** When ids are positions, clicking a row on screen does what the view
      model's `onClick` does for that id. */
  lemma ScreenClickAgrees(s: seq<NameState>, clicked: NameState)
    requires IdsArePositions(s)
    ensures 0 <= clicked.id < |s| ==> OnClick(s, clicked.id) == Updated(ScreenClick(s, clicked))
    ensures !(0 <= clicked.id < |s|) ==> ScreenClick(s, clicked) == s && OnClick(s, clicked.id).IndexOutOfBounds?
  {
  }
}
