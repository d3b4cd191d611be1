/** The project list held in the `projects` state of the `Main` component
    (src/components/Main.jsx), and the handlers that replace it through
    `setProjects`. */
module Client {
  import opened Seqs

  /** The ids in the list: the seeded project has the number 1, added
      projects get a uuid string; `===` never equates the two kinds. */
  datatype ClientId = Numeric(n: int) | Uuid(text: string)

  datatype Item = Item(id: ClientId, name: string, completed: bool, content: string, preference: int)

  predicate HasId(items: seq<Item>, id: ClientId) {
    exists i :: 0 <= i < |items| && items[i].id == id
  }

  ghost predicate DistinctIds(items: seq<Item>) {
    forall i, j :: 0 <= i < j < |items| ==> items[i].id != items[j].id
  }

  /** The object `handleAddProject` appends. */
  function NewItem(uuid: string, name: string, content: string): Item {
    Item(Uuid(uuid), name, false, content, 0)
  }

  /** A fresh uuid keeps the ids of the list distinct. */
  lemma AddKeepsIdsDistinct(items: seq<Item>, uuid: string, name: string, content: string)
    requires DistinctIds(items) && !HasId(items, Uuid(uuid))
    ensures DistinctIds(items + [NewItem(uuid, name, content)])
  {
    var r := items + [NewItem(uuid, name, content)];
    forall i, j | 0 <= i < j < |r| ensures r[i].id != r[j].id {
      assert r[i] == items[i];
      if j < |items| {
        assert r[j] == items[j];
      }
    }
  }

  /** The index `newProjects.find(project => project.id === id)` lands on. */
  function FirstIndexOf(items: seq<Item>, id: ClientId): (k: nat)
    requires HasId(items, id)
    ensures k < |items| && items[k].id == id
    ensures forall j :: 0 <= j < k ==> items[j].id != id
  {
    if items[0].id == id then 0
    else
      assert HasId(items[1..], id) by {
        var i :| 0 <= i < |items| && items[i].id == id;
        assert items[1..][i - 1] == items[i];
      }
      1 + FirstIndexOf(items[1..], id)
  }

  function Flip(p: Item): Item {
    p.(completed := !p.completed)
  }

  /** The list after `toggleProject(id)`. */
  function Toggled(items: seq<Item>, id: ClientId): seq<Item>
    requires HasId(items, id)
  {
    var k := FirstIndexOf(items, id);
    items[k := Flip(items[k])]
  }

  /** Toggling flips `completed` of the first project with the id and
      changes nothing else: same length, same order, same other projects. */
  lemma ToggledChangesOnlyFirstMatch(items: seq<Item>, id: ClientId)
    requires HasId(items, id)
    ensures var r := Toggled(items, id);
      && |r| == |items|
      && forall k :: 0 <= k < |items| ==>
           if k == FirstIndexOf(items, id) then r[k] == items[k].(completed := !items[k].completed)
           else r[k] == items[k]
  {
  }

  /** Toggling the same id twice gives back the list. */
  lemma ToggleTwice(items: seq<Item>, id: ClientId)
    requires HasId(items, id)
    ensures HasId(Toggled(items, id), id)
    ensures Toggled(Toggled(items, id), id) == items
  {
    var k := FirstIndexOf(items, id);
    var once := Toggled(items, id);
    assert once[k].id == id;
    var k' := FirstIndexOf(once, id);
    assert k' == k by {
      assert forall j :: 0 <= j < k ==> once[j] == items[j];
    }
  }

  /** The list after `updatePreference(id, preference)`: the `map`. */
  function WithPreference(items: seq<Item>, id: ClientId, preference: int): (r: seq<Item>)
    ensures |r| == |items|
  {
    if items == [] then []
    else [if items[0].id == id then items[0].(preference := preference) else items[0]]
         + WithPreference(items[1..], id, preference)
  }

  /** Every project with the id gets the preference, and nothing else
      changes. */
  lemma {:induction false} WithPreferenceAt(items: seq<Item>, id: ClientId, preference: int, k: nat)
    requires k < |items|
    ensures WithPreference(items, id, preference)[k]
         == if items[k].id == id then items[k].(preference := preference) else items[k]
  {
    if k > 0 {
      WithPreferenceAt(items[1..], id, preference, k - 1);
    }
  }

  function NotId(id: ClientId): Item -> bool {
    (p: Item) => p.id != id
  }

  /** The list after `deleteProject(id)`: exactly the projects with another
      id, each as often as before, in their order. */
  function Without(items: seq<Item>, id: ClientId): (r: seq<Item>)
    ensures forall p :: p in r ==> p in items && p.id != id
    ensures forall p :: p in items && p.id != id ==> p in r
    ensures Subsequence(r, items)
    ensures forall x :: multiset(r)[x] == if x.id != id then multiset(items)[x] else 0
  {
    FilterMembership(items, NotId(id));
    FilterIsSubsequence(items, NotId(id));
    FilterMultiset(items, NotId(id));
    Filter(items, NotId(id))
  }

  lemma WithoutIdempotent(items: seq<Item>, id: ClientId)
    ensures Without(Without(items, id), id) == Without(items, id)
  {
    FilterIdempotent(items, NotId(id));
  }

  function Pending(): Item -> bool {
    (p: Item) => !p.completed
  }

  /** The list after `handleClear`: exactly the projects not completed,
      each as often as before, in their order. */
  function Uncompleted(items: seq<Item>): (r: seq<Item>)
    ensures forall p :: p in r ==> p in items && !p.completed
    ensures forall p :: p in items && !p.completed ==> p in r
    ensures Subsequence(r, items)
    ensures forall x :: multiset(r)[x] == if !x.completed then multiset(items)[x] else 0
  {
    FilterMembership(items, Pending());
    FilterIsSubsequence(items, Pending());
    FilterMultiset(items, Pending());
    Filter(items, Pending())
  }

  lemma UncompletedIdempotent(items: seq<Item>)
    ensures Uncompleted(Uncompleted(items)) == Uncompleted(items)
  {
    FilterIdempotent(items, Pending());
  }

  class Board {
    /** The `projects` state. */
    var projects: seq<Item>

    /** The initial state of `useState`. */
    constructor ()
      ensures projects == [Item(Numeric(1), "Project A", false, "Content for Project A", 0)]
    {
      projects := [Item(Numeric(1), "Project A", false, "Content for Project A", 0)];
    }

    /** `handleAddProject` with the two input values and the uuid drawn for
        the new project. */
    method AddProject(name: string, content: string, uuid: string)
      modifies this
      ensures name == "" ==> projects == old(projects)
      ensures name != "" ==> projects == old(projects) + [NewItem(uuid, name, content)]
    {
      if name == "" {
        return;
      }
      projects := projects + [NewItem(uuid, name, content)];
    }

    /** `toggleProject(id)`: copy the list, find the first project with the
        id and flip its `completed`. Without such a project the source
        fails on `undefined`, so one is required. */
    method ToggleProject(id: ClientId)
      requires HasId(projects, id)
      modifies this
      ensures projects == Toggled(old(projects), id)
    {
      var copy := projects;
      var k := 0;
      while copy[k].id != id
        invariant 0 <= k <= FirstIndexOf(copy, id)
        decreases FirstIndexOf(copy, id) - k
      {
        k := k + 1;
      }
      copy := copy[k := Flip(copy[k])];
      projects := copy;
    }

    /** `updatePreference(id, preference)`. */
    method UpdatePreference(id: ClientId, preference: int)
      modifies this
      ensures projects == WithPreference(old(projects), id, preference)
    {
      projects := WithPreference(projects, id, preference);
    }

    /** `deleteProject(id)`. */
    method DeleteProject(id: ClientId)
      modifies this
      ensures projects == Without(old(projects), id)
    {
      projects := Without(projects, id);
    }

    /** `handleClear`. */
    method ClearCompleted()
      modifies this
      ensures projects == Uncompleted(old(projects))
    {
      projects := Uncompleted(projects);
    }
  }
}
