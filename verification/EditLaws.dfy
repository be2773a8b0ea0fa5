/** What each edit changes, and when it is accepted. */
module EditLaws {
  import opened Options
  import opened Bytes
  import opened SceneEdits

  /** What an edit asks of the scene it is applied to. */
  predicate Applies(scene: Scene, edit: Edit) {
    match edit
    case InsertElement(_, _) => |scene.elements| < 2000
    case UpdateElement(id, _) => exists e :: e in scene.elements && e.id == Some(id)
    case MoveElement(id, _) => exists e :: e in scene.elements && e.id == Some(id)
    case ReplaceScene(other) =>
      other.schema == Ascii("tfsb.vector-scene-v1") && other.compatibility == 1 && other.compilerLevel in {0, 1}
    case _ => true
  }

  lemma AppliesExactly(scene: Scene, edit: Edit)
    ensures ApplyEdit(scene, edit).Ok? <==> Applies(scene, edit)
    ensures ApplyEdit(scene, edit) == Err(ResultTooLarge) ==> edit.InsertElement?
    ensures ApplyEdit(scene, edit) == Err(ProtocolInvalid) ==> edit.ReplaceScene?
    ensures ApplyEdit(scene, edit) == Err(SelectionRejected) ==> edit.UpdateElement? || edit.MoveElement?
    ensures ApplyEdit(scene, edit).Err? ==>
      ApplyEdit(scene, edit).error in {ResultTooLarge, ProtocolInvalid, SelectionRejected}
  {
    if edit.UpdateElement? || edit.MoveElement? {
      PositionIsFirst(scene.elements, edit.id);
      hide Position, Move;
      if ApplyEdit(scene, edit).Ok? {
        assert scene.elements[Position(scene.elements, edit.id).value] in scene.elements;
      }
    }
  }

  datatype Part =
    | Format | Artboard | Profile | Accessibility | Elements | Definitions | TokenBindings | Layout | Provenance

  /** The part of a scene that an edit is about. */
  function PartOf(edit: Edit): Part
    requires !edit.ReplaceScene?
  {
    match edit
    case SetArtboard(_) => Artboard
    case SetProfile(_) => Profile
    case SetAccessibility(_) => Accessibility
    case SetDefinitions(_) => Definitions
    case SetTokenBindings(_) => TokenBindings
    case SetLayout(_) => Layout
    case SetProvenance(_) => Provenance
    case _ => Elements
  }

  predicate SamePart(part: Part, a: Scene, b: Scene) {
    match part
    case Format => a.schema == b.schema && a.compatibility == b.compatibility && a.compilerLevel == b.compilerLevel
    case Artboard => a.artboard == b.artboard
    case Profile => a.profile == b.profile
    case Accessibility => a.accessibility == b.accessibility
    case Elements => a.elements == b.elements
    case Definitions => a.definitions == b.definitions
    case TokenBindings => a.tokenBindings == b.tokenBindings
    case Layout => a.layout == b.layout
    case Provenance => a.provenance == b.provenance
  }

  /** Scenes that agree in every part are the same. */
  lemma PartsAreAll(a: Scene, b: Scene)
    requires forall part :: SamePart(part, a, b)
    ensures a == b
  {
    assert SamePart(Format, a, b) && SamePart(Artboard, a, b) && SamePart(Profile, a, b);
    assert SamePart(Accessibility, a, b) && SamePart(Elements, a, b) && SamePart(Definitions, a, b);
    assert SamePart(TokenBindings, a, b) && SamePart(Layout, a, b) && SamePart(Provenance, a, b);
  }

  /** An edit changes its own part only. */
  lemma OtherPartsStay(scene: Scene, edit: Edit, part: Part)
    requires ApplyEdit(scene, edit).Ok? && !edit.ReplaceScene? && part != PartOf(edit)
    ensures SamePart(part, ApplyEdit(scene, edit).value, scene)
  {
    hide Position, Without, Move;
  }

  /** The value a setter sets. */
  predicate HasSet(edit: Edit, scene: Scene) {
    match edit
    case SetArtboard(artboard) => scene.artboard == artboard
    case SetProfile(profile) => scene.profile == profile
    case SetAccessibility(accessibility) => scene.accessibility == accessibility
    case SetDefinitions(definitions) => scene.definitions == definitions
    case SetTokenBindings(tokenBindings) => scene.tokenBindings == tokenBindings
    case SetLayout(layout) => scene.layout == layout
    case SetProvenance(provenance) => scene.provenance == provenance
    case ReplaceScene(other) => scene == other
    case _ => true
  }

  lemma SettersSet(scene: Scene, edit: Edit)
    requires ApplyEdit(scene, edit).Ok?
    ensures HasSet(edit, ApplyEdit(scene, edit).value)
  {
    hide Position, Without, Move;
  }

  /** The setter that gives a part the value it has in `scene`. */
  function Restoring(part: Part, scene: Scene): Edit
    requires part != Format && part != Elements
  {
    match part
    case Artboard => SetArtboard(scene.artboard)
    case Profile => SetProfile(scene.profile)
    case Accessibility => SetAccessibility(scene.accessibility)
    case Definitions => SetDefinitions(scene.definitions)
    case TokenBindings => SetTokenBindings(scene.tokenBindings)
    case Layout => SetLayout(scene.layout)
    case _ => SetProvenance(scene.provenance)
  }

  /** A setter is undone by setting the old value. */
  lemma SettersUndo(scene: Scene, edit: Edit)
    requires !edit.ReplaceScene? && PartOf(edit) != Elements
    ensures ApplyAll(scene, [edit, Restoring(PartOf(edit), scene)]) == Ok(scene)
  {
    var undo := Restoring(PartOf(edit), scene);
    var after := ApplyEdit(scene, edit).value;
    assert ApplyEdit(scene, edit).Ok? && ApplyEdit(after, undo).Ok?;
    var back := ApplyEdit(after, undo).value;
    forall part
      ensures SamePart(part, back, scene)
    {
      if part == PartOf(edit) {
        SettersSet(after, undo);
      } else {
        OtherPartsStay(scene, edit, part);
        OtherPartsStay(after, undo, part);
      }
    }
    PartsAreAll(back, scene);
    hide ApplyEdit;
    ApplyTwo(scene, edit, undo);
  }

  lemma ApplyTwo(scene: Scene, first: Edit, second: Edit)
    ensures ApplyAll(scene, [first, second]) ==
      var r := ApplyEdit(scene, first);
      if r.Err? then r else ApplyEdit(r.value, second)
  {
    hide ApplyEdit;
    OneMore(scene, [first, second], 0);
    OneMore(scene, [first, second], 1);
    assert [first, second][..2] == [first, second];
  }

  /** An insertion puts the element at the index asked for, or at the end, and shifts the rest. */
  lemma InsertionPlaces(scene: Scene, index: Option<nat>, element: Element)
    requires |scene.elements| < 2000
    ensures
      var r, n := ApplyEdit(scene, InsertElement(index, element)), |scene.elements|;
      var k := if index.Some? && index.value <= n then index.value else n;
      && r.Ok? && |r.value.elements| == n + 1 && r.value.elements[k] == element
      && (forall i | 0 <= i < k :: r.value.elements[i] == scene.elements[i])
      && (forall i | k <= i < n :: r.value.elements[i + 1] == scene.elements[i])
  {
  }

  /** An update replaces the first element with the identifier and no other. */
  lemma UpdateReplacesFirst(scene: Scene, id: Text, element: Element, p: nat)
    requires p < |scene.elements| && scene.elements[p].id == Some(id)
    requires forall i | 0 <= i < p :: scene.elements[i].id != Some(id)
    ensures
      var r := ApplyEdit(scene, UpdateElement(id, element));
      && r.Ok? && |r.value.elements| == |scene.elements| && r.value.elements[p] == element
      && forall i | 0 <= i < |scene.elements| && i != p :: r.value.elements[i] == scene.elements[i]
  {
    PositionAt(scene.elements, id, p);
    hide Position;
  }

  // ------------------------------------------------------------ batches

  /** Each edit is accepted by the scene that the edits before it leave. */
  ghost predicate AllApply(scene: Scene, edits: seq<Edit>) {
    forall k | 0 <= k < |edits| ::
      ApplyAll(scene, edits[..k]).Ok? ==> Applies(ApplyAll(scene, edits[..k]).value, edits[k])
  }

  /** The scene after `k + 1` edits, if the first `k` are accepted. */
  lemma OneMore(scene: Scene, edits: seq<Edit>, k: nat)
    requires k < |edits|
    ensures ApplyAll(scene, edits[..k + 1]) ==
      var r := ApplyAll(scene, edits[..k]);
      if r.Err? then r else ApplyEdit(r.value, edits[k])
  {
    hide ApplyEdit;
    assert edits[..k + 1] == edits[..k] + [edits[k]];
    BatchesCompose(scene, edits[..k], [edits[k]]);
    var none: seq<Edit> := [edits[k]][1..];
    assert none == [];
  }

  lemma {:induction false} PrefixesSucceed(scene: Scene, edits: seq<Edit>, k: nat)
    requires k <= |edits| && AllApply(scene, edits)
    ensures ApplyAll(scene, edits[..k]).Ok?
    decreases k
  {
    hide ApplyEdit, Applies;
    if k > 0 {
      PrefixesSucceed(scene, edits, k - 1);
      OneMore(scene, edits, k - 1);
      AppliesExactly(ApplyAll(scene, edits[..k - 1]).value, edits[k - 1]);
    }
  }

  lemma {:induction false} SuccessHasPrefixes(scene: Scene, edits: seq<Edit>, k: nat)
    requires k <= |edits| && ApplyAll(scene, edits).Ok?
    ensures ApplyAll(scene, edits[..k]).Ok?
    decreases |edits| - k
  {
    hide ApplyEdit, ApplyAll;
    if k == |edits| {
      assert edits[..k] == edits;
    } else {
      SuccessHasPrefixes(scene, edits, k + 1);
      OneMore(scene, edits, k);
    }
  }

  /** A batch is accepted exactly when each edit is accepted by the scene it meets. */
  lemma BatchAppliesExactly(scene: Scene, edits: seq<Edit>)
    ensures ApplyAll(scene, edits).Ok? <==> AllApply(scene, edits)
  {
    hide ApplyEdit, ApplyAll, Applies;
    if AllApply(scene, edits) {
      PrefixesSucceed(scene, edits, |edits|);
      assert edits[..|edits|] == edits;
    }
    if ApplyAll(scene, edits).Ok? {
      forall k | 0 <= k < |edits|
        ensures ApplyAll(scene, edits[..k]).Ok? && Applies(ApplyAll(scene, edits[..k]).value, edits[k])
      {
        SuccessHasPrefixes(scene, edits, k);
        SuccessHasPrefixes(scene, edits, k + 1);
        OneMore(scene, edits, k);
        AppliesExactly(ApplyAll(scene, edits[..k]).value, edits[k]);
      }
    }
  }
}
