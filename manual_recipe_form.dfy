/** The ingredient and step lists of the manual "Add a Recipe" screen
    (client/app/add-recipe-manual.tsx). Each list is React state that its
    helpers replace with a fresh array: adding appends an empty slot, and
    editing maps the list, replacing only the element at the edited index. */
module ManualRecipeForm {

  /** `[...entries, '']`: the list with one more, empty, slot at the end. */
  function AddEntry(entries: seq<string>): (r: seq<string>)
    ensures |r| == |entries| + 1
    ensures r[..|entries|] == entries && r[|entries|] == ""
  {
    entries + [""]
  }

  /** `entries.map((e, i) => (i === idx ? value : e))`. */
  function UpdateEntry(entries: seq<string>, idx: int, value: string): (r: seq<string>)
    ensures |r| == |entries|
    ensures 0 <= idx < |entries| ==> r[idx] == value
    ensures forall i :: 0 <= i < |entries| && i != idx ==> r[i] == entries[i]
    ensures !(0 <= idx < |entries|) ==> r == entries
  {
    seq(|entries|, i requires 0 <= i < |entries| => if i == idx then value else entries[i])
  }

  /** For an index in range, the edit is Dafny's sequence update. */
  lemma UpdateEntryIsSeqUpdate(entries: seq<string>, idx: int, value: string)
    requires 0 <= idx < |entries|
    ensures UpdateEntry(entries, idx, value) == entries[idx := value]
  {
  }

  /** Editing the same slot twice keeps only the second value. */
  lemma UpdateEntryLastWins(entries: seq<string>, idx: int, v: string, w: string)
    ensures UpdateEntry(UpdateEntry(entries, idx, v), idx, w) == UpdateEntry(entries, idx, w)
  {
  }

  /** Edits to two different slots commute. */
  lemma UpdateEntriesCommute(entries: seq<string>, i: int, v: string, j: int, w: string)
    requires i != j
    ensures UpdateEntry(UpdateEntry(entries, i, v), j, w) == UpdateEntry(UpdateEntry(entries, j, w), i, v)
  {
  }

  /** The two lists the screen keeps. */
  datatype Form = Form(ingredients: seq<string>, steps: seq<string>)

  /** `useState([''])` for both lists. */
  function Initial(): (f: Form)
    ensures f.ingredients == [""] && f.steps == [""]
  {
    Form([""], [""])
  }

  function AddIngredient(f: Form): (g: Form)
    ensures g.ingredients == AddEntry(f.ingredients) && g.steps == f.steps
  {
    f.(ingredients := AddEntry(f.ingredients))
  }

  function UpdateIngredient(f: Form, idx: int, value: string): (g: Form)
    ensures g.ingredients == UpdateEntry(f.ingredients, idx, value) && g.steps == f.steps
  {
    f.(ingredients := UpdateEntry(f.ingredients, idx, value))
  }

  function AddStep(f: Form): (g: Form)
    ensures g.steps == AddEntry(f.steps) && g.ingredients == f.ingredients
  {
    f.(steps := AddEntry(f.steps))
  }

  function UpdateStep(f: Form, idx: int, value: string): (g: Form)
    ensures g.steps == UpdateEntry(f.steps, idx, value) && g.ingredients == f.ingredients
  {
    f.(steps := UpdateEntry(f.steps, idx, value))
  }

  /** What the user can do to the lists: press "Add Ingredient" or "Add Step",
      or type into the input at some index. */
  datatype Action =
    | AddIngredientPressed
    | IngredientTyped(idx: int, value: string)
    | AddStepPressed
    | StepTyped(idx: int, value: string)

  /** The helper an action calls: each touches its own list only, and only
      a press of "Add" changes a list's length, by one. */
  function Apply(f: Form, a: Action): (g: Form)
    ensures a.AddIngredientPressed? || a.IngredientTyped? ==> g.steps == f.steps
    ensures a.AddStepPressed? || a.StepTyped? ==> g.ingredients == f.ingredients
    ensures |g.ingredients| == |f.ingredients| + (if a.AddIngredientPressed? then 1 else 0)
    ensures |g.steps| == |f.steps| + (if a.AddStepPressed? then 1 else 0)
  {
    match a
    case AddIngredientPressed => AddIngredient(f)
    case IngredientTyped(idx, value) => UpdateIngredient(f, idx, value)
    case AddStepPressed => AddStep(f)
    case StepTyped(idx, value) => UpdateStep(f, idx, value)
  }

  /** The form after the actions, in order. Neither list ever shrinks. */
  function Replay(f: Form, actions: seq<Action>): (g: Form)
    ensures |g.ingredients| >= |f.ingredients| && |g.steps| >= |f.steps|
    decreases |actions|
  {
    if actions == [] then f else Replay(Apply(f, actions[0]), actions[1..])
  }

  /** How many of the actions press "Add Ingredient". */
  function IngredientAdds(actions: seq<Action>): (n: nat)
  {
    if actions == [] then 0
    else (if actions[0].AddIngredientPressed? then 1 else 0) + IngredientAdds(actions[1..])
  }

  /** How many of the actions press "Add Step". */
  function StepAdds(actions: seq<Action>): (n: nat)
  {
    if actions == [] then 0
    else (if actions[0].AddStepPressed? then 1 else 0) + StepAdds(actions[1..])
  }

  /** Each list grows by exactly one per press of its "Add" button, and
      typing never changes a list's length. */
  lemma {:induction false} ReplayLengths(f: Form, actions: seq<Action>)
    ensures |Replay(f, actions).ingredients| == |f.ingredients| + IngredientAdds(actions)
    ensures |Replay(f, actions).steps| == |f.steps| + StepAdds(actions)
    decreases |actions|
  {
    if actions != [] {
      ReplayLengths(Apply(f, actions[0]), actions[1..]);
    }
  }

  /** From the initial screen, no sequence of actions empties either list. */
  lemma NeverEmpty(actions: seq<Action>)
    ensures |Replay(Initial(), actions).ingredients| >= 1
    ensures |Replay(Initial(), actions).steps| >= 1
  {
    ReplayLengths(Initial(), actions);
  }

  /** Actions on ingredients leave the steps exactly as they were, and the other way round. */
  lemma {:induction false} ListsIndependent(f: Form, actions: seq<Action>)
    ensures (forall i :: 0 <= i < |actions| ==> actions[i].AddIngredientPressed? || actions[i].IngredientTyped?)
            ==> Replay(f, actions).steps == f.steps
    ensures (forall i :: 0 <= i < |actions| ==> actions[i].AddStepPressed? || actions[i].StepTyped?)
            ==> Replay(f, actions).ingredients == f.ingredients
    decreases |actions|
  {
    if actions != [] {
      ListsIndependent(Apply(f, actions[0]), actions[1..]);
      assert forall i :: 0 <= i < |actions| - 1 ==> actions[1..][i] == actions[i + 1];
    }
  }
}
