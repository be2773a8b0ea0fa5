/** Scenes and the edits that a batch applies to them, one after the other. */
module SceneEdits {
  import opened Options
  import opened Lists
  import opened Bytes

  type Text = seq<Byte>

  datatype Reason =
    | ContextStale
    | ContextInvalid
    | Stale
    | DigestMismatch
    | ResultTooLarge
    | SelectionRejected
    | ProtocolInvalid
    | DomainFailed
    | PlanInvalid
    | PlanExpired

  type Reply<T> = Result<T, Reason>

  /** An element; only its identifier matters here, the rest is `body`. */
  datatype Element = Element(id: Option<Text>, body: Text)

  datatype Scene = Scene(
    schema: Text,
    compatibility: nat,
    compilerLevel: nat,
    profile: Text,
    artboard: Text,
    accessibility: Text,
    elements: seq<Element>,
    definitions: Option<Text>,
    tokenBindings: Option<map<Text, Text>>,
    layout: Option<Text>,
    provenance: Option<Text>)

  datatype Edit =
    | SetArtboard(artboard: Text)
    | SetProfile(profile: Text)
    | SetAccessibility(accessibility: Text)
    | InsertElement(index: Option<nat>, element: Element)
    | UpdateElement(id: Text, element: Element)
    | RemoveElement(id: Text)
    | MoveElement(id: Text, newIndex: nat)
    | SetDefinitions(definitions: Option<Text>)
    | SetTokenBindings(tokenBindings: Option<map<Text, Text>>)
    | SetLayout(layout: Option<Text>)
    | SetProvenance(provenance: Option<Text>)
    | ReplaceScene(scene: Scene)

  const MAX_ELEMENTS: nat := 2000

  predicate Supported(scene: Scene) {
    scene.schema == Ascii("tfsb.vector-scene-v1") && scene.compatibility == 1 && scene.compilerLevel <= 1
  }

  // ------------------------------------------------------------ lists of elements

  /** Where the first element with this identifier is. */
  function Position(elements: seq<Element>, id: Text): Option<nat> {
    if elements == [] then None
    else if elements[0].id == Some(id) then Some(0)
    else
      var rest := Position(elements[1..], id);
      if rest.None? then None else Some(rest.value + 1)
  }

  lemma {:induction false} PositionIsFirst(elements: seq<Element>, id: Text)
    ensures Position(elements, id).None? <==> forall e | e in elements :: e.id != Some(id)
    ensures Position(elements, id).Some? ==>
      var p := Position(elements, id).value;
      p < |elements| && elements[p].id == Some(id) && forall i | 0 <= i < p :: elements[i].id != Some(id)
  {
    if elements != [] {
      PositionIsFirst(elements[1..], id);
      assert elements == [elements[0]] + elements[1..];
      if Position(elements, id).Some? && elements[0].id != Some(id) {
        var p := Position(elements, id).value;
        forall i | 0 <= i < p
          ensures elements[i].id != Some(id)
        {
          assert i > 0 ==> elements[i] == elements[1..][i - 1];
        }
      }
    }
  }

  lemma PositionAt(elements: seq<Element>, id: Text, p: nat)
    requires p < |elements| && elements[p].id == Some(id) && forall i | 0 <= i < p :: elements[i].id != Some(id)
    ensures Position(elements, id) == Some(p)
  {
    PositionIsFirst(elements, id);
    assert elements[p] in elements;
  }

  function InsertAt(elements: seq<Element>, k: nat, e: Element): seq<Element>
    requires k <= |elements|
  {
    elements[..k] + [e] + elements[k..]
  }

  function RemoveAt(elements: seq<Element>, k: nat): (r: seq<Element>)
    requires k < |elements|
    ensures |r| == |elements| - 1
  {
    elements[..k] + elements[k + 1..]
  }

  function Without(elements: seq<Element>, id: Text): seq<Element> {
    if elements == [] then []
    else (if elements[0].id == Some(id) then [] else [elements[0]]) + Without(elements[1..], id)
  }

  function Move(elements: seq<Element>, p: nat, newIndex: nat): seq<Element>
    requires p < |elements|
  {
    InsertAt(RemoveAt(elements, p), Min(newIndex, |elements| - 1), elements[p])
  }

  // ------------------------------------------------------------ edits

  function ApplyEdit(scene: Scene, edit: Edit): Reply<Scene> {
    match edit
    case SetArtboard(artboard) => Ok(scene.(artboard := artboard))
    case SetProfile(profile) => Ok(scene.(profile := profile))
    case SetAccessibility(accessibility) => Ok(scene.(accessibility := accessibility))
    case InsertElement(index, element) =>
      if |scene.elements| >= MAX_ELEMENTS then Err(ResultTooLarge)
      else if index.Some? && index.value <= |scene.elements| then
        Ok(scene.(elements := InsertAt(scene.elements, index.value, element)))
      else Ok(scene.(elements := scene.elements + [element]))
    case UpdateElement(id, element) =>
      var found := Position(scene.elements, id);
      if found.None? then Err(SelectionRejected)
      else
        PositionIsFirst(scene.elements, id);
        Ok(scene.(elements := scene.elements[found.value := element]))
    case RemoveElement(id) => Ok(scene.(elements := Without(scene.elements, id)))
    case MoveElement(id, newIndex) =>
      var found := Position(scene.elements, id);
      if found.None? then Err(SelectionRejected)
      else
        PositionIsFirst(scene.elements, id);
        Ok(scene.(elements := Move(scene.elements, found.value, newIndex)))
    case SetDefinitions(definitions) => Ok(scene.(definitions := definitions))
    case SetTokenBindings(tokenBindings) => Ok(scene.(tokenBindings := tokenBindings))
    case SetLayout(layout) => Ok(scene.(layout := layout))
    case SetProvenance(provenance) => Ok(scene.(provenance := provenance))
    case ReplaceScene(replacement) => if Supported(replacement) then Ok(replacement) else Err(ProtocolInvalid)
  }

  /** All edits in order, or the first failure. */
  function ApplyAll(scene: Scene, edits: seq<Edit>): Reply<Scene>
    decreases |edits|
  {
    if edits == [] then Ok(scene)
    else
      var next := ApplyEdit(scene, edits[0]);
      if next.Err? then next else ApplyAll(next.value, edits[1..])
  }

  // ------------------------------------------------------------ the loops

  method FindElement(elements: seq<Element>, id: Text) returns (found: Option<nat>)
    ensures found == Position(elements, id)
  {
    for i := 0 to |elements|
      invariant forall k | 0 <= k < i :: elements[k].id != Some(id)
    {
      if elements[i].id == Some(id) {
        PositionAt(elements, id, i);
        return Some(i);
      }
    }
    PositionIsFirst(elements, id);
    if Position(elements, id).Some? {
      assert false;
    }
    return None;
  }

  method ApplyOperations(scene: Scene, edits: seq<Edit>) returns (r: Reply<Scene>)
    ensures r == ApplyAll(scene, edits)
  {
    var tentative := scene;
    for i := 0 to |edits|
      invariant ApplyAll(tentative, edits[i..]) == ApplyAll(scene, edits)
    {
      assert edits[i..][1..] == edits[i + 1..];
      var next := ApplyOne(tentative, edits[i]);
      if next.Err? {
        return next;
      }
      tentative := next.value;
    }
    return Ok(tentative);
  }

  method ApplyOne(scene: Scene, edit: Edit) returns (r: Reply<Scene>)
    ensures r == ApplyEdit(scene, edit)
  {
    match edit
    case UpdateElement(id, element) =>
      PositionIsFirst(scene.elements, id);
      var found := FindElement(scene.elements, id);
      if found.None? {
        return Err(SelectionRejected);
      }
      return Ok(scene.(elements := scene.elements[found.value := element]));
    case MoveElement(id, newIndex) =>
      PositionIsFirst(scene.elements, id);
      var found := FindElement(scene.elements, id);
      if found.None? {
        return Err(SelectionRejected);
      }
      var moved := scene.elements[found.value];
      var rest := scene.elements[..found.value] + scene.elements[found.value + 1..];
      var target := if newIndex < |rest| then newIndex else |rest|;
      return Ok(scene.(elements := rest[..target] + [moved] + rest[target..]));
    case _ =>
      return ApplyEdit(scene, edit);
  }

  // ------------------------------------------------------------ what the edits do

  lemma InsertCounts(elements: seq<Element>, k: nat, e: Element)
    requires k <= |elements|
    ensures multiset(InsertAt(elements, k, e)) == multiset(elements) + multiset{e}
  {
    assert elements == elements[..k] + elements[k..];
  }

  lemma MovedElements(elements: seq<Element>, p: nat, newIndex: nat)
    requires p < |elements|
    ensures var moved, t := Move(elements, p, newIndex), Min(newIndex, |elements| - 1);
      && |moved| == |elements| && moved[t] == elements[p]
      && RemoveAt(moved, t) == RemoveAt(elements, p)
      && multiset(moved) == multiset(elements)
  {
    var rest, t := RemoveAt(elements, p), Min(newIndex, |elements| - 1);
    RemovedAndBack(elements, p);
    InsertedAndOut(rest, t, elements[p]);
    InsertCounts(rest, p, elements[p]);
    InsertCounts(rest, t, elements[p]);
    hide InsertAt, RemoveAt;
  }

  lemma RemovedAndBack(elements: seq<Element>, p: nat)
    requires p < |elements|
    ensures InsertAt(RemoveAt(elements, p), p, elements[p]) == elements
  {
  }

  lemma InsertedAndOut(elements: seq<Element>, k: nat, e: Element)
    requires k <= |elements|
    ensures var longer := InsertAt(elements, k, e);
      |longer| == |elements| + 1 && longer[k] == e && RemoveAt(longer, k) == elements
  {
  }

  /** A move takes the first element with the identifier to its new place and keeps the others in order. */
  lemma MoveIsPermutation(scene: Scene, id: Text, newIndex: nat)
    ensures var r := ApplyEdit(scene, MoveElement(id, newIndex));
      && (r.Ok? <==> exists e :: e in scene.elements && e.id == Some(id))
      && (r.Ok? ==>
        var p, t, moved := Position(scene.elements, id).value, Min(newIndex, |scene.elements| - 1), r.value.elements;
        && r.value == scene.(elements := moved)
        && p < |scene.elements| && scene.elements[p].id == Some(id) && t < |moved| && moved[t] == scene.elements[p]
        && RemoveAt(moved, t) == RemoveAt(scene.elements, p)
        && multiset(moved) == multiset(scene.elements))
  {
    PositionIsFirst(scene.elements, id);
    var found := Position(scene.elements, id);
    if found.Some? {
      assert scene.elements[found.value] in scene.elements;
      MovedElements(scene.elements, found.value, newIndex);
    }
    hide Position, Move, RemoveAt;
  }

  lemma MovedBack(elements: seq<Element>, p: nat, newIndex: nat)
    requires p < |elements|
    ensures Move(Move(elements, p, newIndex), Min(newIndex, |elements| - 1), p) == elements
  {
    MovedElements(elements, p, newIndex);
    assert elements == InsertAt(RemoveAt(elements, p), p, elements[p]);
  }

  ghost predicate OccursOnce(elements: seq<Element>, id: Text, p: nat) {
    && p < |elements|
    && elements[p].id == Some(id)
    && forall i | 0 <= i < |elements| && i != p :: elements[i].id != Some(id)
  }

  lemma MovedOccursOnce(elements: seq<Element>, id: Text, p: nat, newIndex: nat)
    requires OccursOnce(elements, id, p)
    ensures OccursOnce(Move(elements, p, newIndex), id, Min(newIndex, |elements| - 1))
  {
    var rest, t := RemoveAt(elements, p), Min(newIndex, |elements| - 1);
    var moved := Move(elements, p, newIndex);
    assert moved == rest[..t] + [elements[p]] + rest[t..];
    assert forall i | 0 <= i < |rest| :: rest[i] == if i < p then elements[i] else elements[i + 1];
    assert forall i | 0 <= i < |moved| && i != t :: moved[i] == if i < t then rest[i] else rest[i - 1];
  }

  /** An element whose identifier is unique can be moved back. */
  lemma MoveBack(scene: Scene, id: Text, p: nat, newIndex: nat)
    requires OccursOnce(scene.elements, id, p)
    ensures var moved := ApplyEdit(scene, MoveElement(id, newIndex));
      moved.Ok? && ApplyEdit(moved.value, MoveElement(id, p)) == Ok(scene)
  {
    var t := Min(newIndex, |scene.elements| - 1);
    PositionAt(scene.elements, id, p);
    MovedOccursOnce(scene.elements, id, p, newIndex);
    PositionAt(Move(scene.elements, p, newIndex), id, t);
    MovedBack(scene.elements, p, newIndex);
    hide Position, Move;
  }

  lemma {:induction false} RemovalSplits(a: seq<Element>, b: seq<Element>, id: Text)
    ensures Without(a + b, id) == Without(a, id) + Without(b, id)
    decreases |a|
  {
    if a == [] {
      assert a + b == b;
    } else {
      RemovalSplits(a[1..], b, id);
      assert (a + b)[1..] == a[1..] + b;
    }
  }

  lemma {:induction false} RemovalCounts(elements: seq<Element>, id: Text, e: Element)
    ensures multiset(Without(elements, id))[e] == if e.id == Some(id) then 0 else multiset(elements)[e]
  {
    if elements != [] {
      RemovalCounts(elements[1..], id, e);
      assert elements == [elements[0]] + elements[1..];
      var rest := Without(elements[1..], id);
      assert elements[0].id != Some(id) ==> multiset([elements[0]] + rest) == multiset{elements[0]} + multiset(rest);
    }
  }

  lemma RemovalOfOne(id: Text)
    ensures forall e :: Without([e], id) == if e.id == Some(id) then [] else [e]
  {
  }

  /**
   A removal takes out every element with the identifier, and keeps each other one as often as it
   occurred and where it stood among the rest.
   */
  lemma RemovalKeepsOthers(elements: seq<Element>, id: Text)
    ensures forall e ::
      multiset(Without(elements, id))[e] == if e.id == Some(id) then 0 else multiset(elements)[e]
    ensures forall k | 0 <= k <= |elements| ::
      Without(elements, id) == Without(elements[..k], id) + Without(elements[k..], id)
    ensures forall e :: Without([e], id) == if e.id == Some(id) then [] else [e]
  {
    RemovalOfOne(id);
    hide Without;
    forall e: Element
      ensures multiset(Without(elements, id))[e] == if e.id == Some(id) then 0 else multiset(elements)[e]
    {
      RemovalCounts(elements, id, e);
    }
    forall k | 0 <= k <= |elements|
      ensures Without(elements, id) == Without(elements[..k], id) + Without(elements[k..], id)
    {
      RemovalSplits(elements[..k], elements[k..], id);
      assert elements[..k] + elements[k..] == elements;
    }
  }

  /** A batch is its first part followed by its second, and fails where the first failure is. */
  lemma {:induction false} BatchesCompose(scene: Scene, first: seq<Edit>, second: seq<Edit>)
    ensures ApplyAll(scene, first + second) ==
      var r := ApplyAll(scene, first);
      if r.Err? then r else ApplyAll(r.value, second)
    decreases |first|
  {
    if first == [] {
      assert first + second == second;
    } else {
      assert (first + second)[1..] == first[1..] + second;
      var next := ApplyEdit(scene, first[0]);
      if next.Ok? {
        BatchesCompose(next.value, first[1..], second);
      }
    }
  }
}
