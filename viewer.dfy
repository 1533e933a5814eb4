/**
 * The viewer's top-level state and the events that change it: the model and
 * texture loads completing, the 5-second texture tick, a click on the canvas
 * (mesh picking), and the panel and property controls. Each event method also
 * runs the effects whose dependencies it changes, as React would after the
 * state update: the "Hull_3" texture pass when the frame index, the textures
 * or the model change, and the scene wireframe pass when the scene's flag
 * changes.
 */
module Viewer {
  import opened Wrappers
  import opened SceneTree
  import opened Textures
  import Hotspot
  import RoundRobin

  /** What the raycaster reports of an intersected object. */
  datatype SceneObject = SceneObject(id: nat, name: string, isMesh: bool)

  /**
   * The click rule: only the nearest intersection (`intersects[0]`) is
   * considered, and only a mesh is picked.
   */
  function PickedMesh(intersects: seq<SceneObject>): (picked: Option<SceneObject>)
    ensures picked.Some? <==> |intersects| > 0 && intersects[0].isMesh
    ensures picked.Some? ==> picked.value == intersects[0] && picked.value.isMesh
  {
    if |intersects| > 0 && intersects[0].isMesh then Some(intersects[0]) else None
  }

  datatype LightKind = AmbientLight | DirectionalLight | PointLight

  datatype LightProperties = LightProperties(kind: LightKind, color: string, intensity: int, position: Hotspot.Vec3)

  datatype SceneProperties = SceneProperties(
    wireframe: bool, backgroundColor: string, showGrid: bool, gridSize: nat, gridDivisions: nat)

  /** The open/closed state of the side panels. */
  datatype Panels = Panels(
    isDescriptionVisible: bool, showMeshProperties: bool, showMeshHierarchy: bool, scenePanel: bool)

  /** Every field of the viewer at once, to say what an event leaves alone. */
  datatype State = State(
    model: Option<Node>,
    textures: seq<TextureFrame>,
    currentTextureIndex: nat,
    isCorrosionVisible: bool,
    selectedMesh: Option<SceneObject>,
    outlineSelection: seq<SceneObject>,
    panels: Panels,
    sceneProperties: SceneProperties,
    lightProperties: LightProperties)

  class App {
    var model: Option<Node>
    var textures: seq<TextureFrame>
    var currentTextureIndex: nat
    var isCorrosionVisible: bool
    var selectedMesh: Option<SceneObject>
    /** `outlinePass.selectedObjects`. */
    var outlineSelection: seq<SceneObject>
    var panels: Panels
    var sceneProperties: SceneProperties
    var lightProperties: LightProperties

    function Snapshot(): (s: State)
      reads this
      ensures s.model == model && s.textures == textures && s.currentTextureIndex == currentTextureIndex
      ensures s.selectedMesh == selectedMesh && s.outlineSelection == outlineSelection && s.panels == panels
    {
      State(model, textures, currentTextureIndex, isCorrosionVisible, selectedMesh,
            outlineSelection, panels, sceneProperties, lightProperties)
    }

    /** The texture the current frame index designates, if any. */
    function CurrentFrame(): (tex: Option<TextureId>)
      reads this
      ensures tex.Some? <==> currentTextureIndex < |textures|
    {
      FrameTexture(textures, currentTextureIndex)
    }

    /**
     * What every event keeps: the nodes of a resident model have distinct
     * ids and its hull meshes show the current frame; the selection is a
     * mesh; the outline is empty or exactly the selected object.
     */
    ghost predicate Valid()
      reads this
    {
      && (model.Some? ==> UniqueIds(model.value) && HullShowsFrame(model.value, CurrentFrame()))
      && (selectedMesh.Some? ==> selectedMesh.value.isMesh)
      && (outlineSelection == [] || (selectedMesh.Some? && outlineSelection == [selectedMesh.value]))
    }

    /** The initial state of every `useState` of the viewer. */
    constructor ()
      ensures Valid()
      ensures model == None && textures == [] && currentTextureIndex == 0 && !isCorrosionVisible
      ensures selectedMesh == None && outlineSelection == []
      ensures panels == Panels(false, false, false, false)
      ensures sceneProperties == SceneProperties(false, "#ffffff", true, 50, 50)
      ensures lightProperties == LightProperties(AmbientLight, "#ffffff", 5, Hotspot.Vec3(10.0, 10.0, 10.0))
    {
      model := None;
      textures := [];
      currentTextureIndex := 0;
      isCorrosionVisible := false;
      selectedMesh := None;
      outlineSelection := [];
      panels := Panels(false, false, false, false);
      sceneProperties := SceneProperties(false, "#ffffff", true, 50, 50);
      lightProperties := LightProperties(AmbientLight, "#ffffff", 5, Hotspot.Vec3(10.0, 10.0, 10.0));
    }

    /**
     * The model load completes: the scene becomes the model and the texture
     * pass runs on it. The selection is not cleared and the scene wireframe
     * pass does not run (its effect does not depend on the model).
     */
    method ModelLoaded(scene: Node)
      requires Valid()
      requires UniqueIds(scene)
      modifies this
      ensures Valid()
      ensures Snapshot() == old(Snapshot()).(model := Some(Traverse(scene, HullTexture(CurrentFrame()))))
    {
      HullTextureEffect(scene, CurrentFrame());
      TraverseKeepsIds(scene, HullTexture(CurrentFrame()));
      model := Some(Traverse(scene, HullTexture(CurrentFrame())));
    }

    /** The texture load completes: the textures are stored and the texture pass re-runs. */
    method TexturesLoaded(frames: seq<TextureFrame>)
      requires Valid()
      modifies this
      ensures Valid()
      ensures textures == frames
      ensures model == if old(model).Some? then Some(Traverse(old(model).value, HullTexture(CurrentFrame())))
                       else None
      ensures Snapshot() == old(Snapshot()).(textures := textures, model := model)
    {
      textures := frames;
      if model.Some? {
        HullTextureEffect(model.value, CurrentFrame());
        TraverseKeepsIds(model.value, HullTexture(CurrentFrame()));
        model := Some(Traverse(model.value, HullTexture(CurrentFrame())));
      }
    }

    /**
     * The 5-second texture timer fires. It only exists while the corrosion
     * overlay is shown and there are textures; then the index becomes
     * `(prevIndex + 1) % textures.length`, and the hull follows the new frame.
     */
    method TextureTick()
      requires Valid()
      modifies this
      ensures Valid()
      ensures currentTextureIndex ==
        if isCorrosionVisible && |textures| > 0 then RoundRobin.Advance(old(currentTextureIndex), |textures|)
        else old(currentTextureIndex)
      ensures isCorrosionVisible && |textures| > 0 ==> currentTextureIndex < |textures|
      ensures old(model).Some? && currentTextureIndex != old(currentTextureIndex) ==>
        model == Some(Traverse(old(model).value, HullTexture(CurrentFrame())))
      ensures old(model).None? || currentTextureIndex == old(currentTextureIndex) ==> model == old(model)
      ensures Snapshot() == old(Snapshot()).(currentTextureIndex := currentTextureIndex, model := model)
    {
      if isCorrosionVisible && |textures| > 0 {
        var next := RoundRobin.Advance(currentTextureIndex, |textures|);
        if next != currentTextureIndex {
          currentTextureIndex := next;
          if model.Some? {
            HullTextureEffect(model.value, CurrentFrame());
            TraverseKeepsIds(model.value, HullTexture(CurrentFrame()));
            model := Some(Traverse(model.value, HullTexture(CurrentFrame())));
          }
        }
      }
    }

    /** The "Show/Hide Progressive Corrosion" button. */
    method ToggleCorrosion()
      requires Valid()
      modifies this
      ensures Valid()
      ensures Snapshot() == old(Snapshot()).(isCorrosionVisible := !old(isCorrosionVisible))
    {
      isCorrosionVisible := !isCorrosionVisible;
    }

    /**
     * A click on the canvas with the raycaster's hits, nearest first: a mesh
     * as first hit becomes the selection and the only outlined object;
     * otherwise nothing changes (the selection is not cleared).
     */
    method CanvasClick(intersects: seq<SceneObject>)
      requires Valid()
      modifies this
      ensures Valid()
      ensures PickedMesh(intersects).Some? ==>
        Snapshot() == old(Snapshot()).(selectedMesh := Some(intersects[0]), outlineSelection := [intersects[0]])
      ensures PickedMesh(intersects).None? ==> Snapshot() == old(Snapshot())
    {
      var picked := PickedMesh(intersects);
      if picked.Some? {
        selectedMesh := picked;
        outlineSelection := [picked.value];
      }
    }

    /**
     * The scene "Wireframe" checkbox. The wireframe pass runs over the model
     * when the flag actually changes value.
     */
    method SetSceneWireframe(checked: bool)
      requires Valid()
      modifies this
      ensures Valid()
      ensures sceneProperties == old(sceneProperties).(wireframe := checked)
      ensures model == if old(model).Some? && checked != old(sceneProperties).wireframe
                       then Some(Traverse(old(model).value, SceneWireframe(checked)))
                       else old(model)
      ensures Snapshot() == old(Snapshot()).(sceneProperties := sceneProperties, model := model)
    {
      var changed := checked != sceneProperties.wireframe;
      sceneProperties := sceneProperties.(wireframe := checked);
      if changed && model.Some? {
        WireframeKeepsHullFrame(model.value, SceneWireframe(checked), CurrentFrame());
        TraverseKeepsIds(model.value, SceneWireframe(checked));
        model := Some(Traverse(model.value, SceneWireframe(checked)));
      }
    }

    /**
     * `handleWireframeChange`: the mesh-properties checkbox sets the selected
     * mesh's own wireframe flag; with no selection nothing happens. Since ids
     * are distinct, at most one node of the model changes.
     */
    method SetMeshWireframe(checked: bool)
      requires Valid()
      modifies this
      ensures Valid()
      ensures model == if old(model).Some? && old(selectedMesh).Some?
                       then Some(Traverse(old(model).value, MeshWireframe(old(selectedMesh).value.id, checked)))
                       else old(model)
      ensures model.Some? ==> |Preorder(model.value)| == |Preorder(old(model).value)|
      ensures model.Some? ==> forall a, b :: 0 <= a < b < |Preorder(old(model).value)| ==>
        Preorder(model.value)[a] == Preorder(old(model).value)[a] || Preorder(model.value)[b] == Preorder(old(model).value)[b]
      ensures Snapshot() == old(Snapshot()).(model := model)
    {
      if selectedMesh.Some? && model.Some? {
        WireframeKeepsHullFrame(model.value, MeshWireframe(selectedMesh.value.id, checked), CurrentFrame());
        TraverseKeepsIds(model.value, MeshWireframe(selectedMesh.value.id, checked));
        MeshWireframeChangesAtMostOne(model.value, selectedMesh.value.id, checked);
        model := Some(Traverse(model.value, MeshWireframe(selectedMesh.value.id, checked)));
      }
    }

    /** Clicking the title shows or hides the project description. */
    method ToggleDescription()
      requires Valid()
      modifies this
      ensures Valid()
      ensures Snapshot() == old(Snapshot()).(panels := old(panels).(isDescriptionVisible := !old(panels).isDescriptionVisible))
    {
      panels := panels.(isDescriptionVisible := !panels.isDescriptionVisible);
    }

    method ToggleMeshProperties()
      requires Valid()
      modifies this
      ensures Valid()
      ensures Snapshot() == old(Snapshot()).(panels := old(panels).(showMeshProperties := !old(panels).showMeshProperties))
    {
      panels := panels.(showMeshProperties := !panels.showMeshProperties);
    }

    method ToggleMeshHierarchy()
      requires Valid()
      modifies this
      ensures Valid()
      ensures Snapshot() == old(Snapshot()).(panels := old(panels).(showMeshHierarchy := !old(panels).showMeshHierarchy))
    {
      panels := panels.(showMeshHierarchy := !panels.showMeshHierarchy);
    }

    /** The camera icon: `selectedProperty` alternates between `'scene'` and `null`. */
    method ToggleScenePanel()
      requires Valid()
      modifies this
      ensures Valid()
      ensures Snapshot() == old(Snapshot()).(panels := old(panels).(scenePanel := !old(panels).scenePanel))
    {
      panels := panels.(scenePanel := !panels.scenePanel);
    }

    method SetShowGrid(checked: bool)
      requires Valid()
      modifies this
      ensures Valid()
      ensures Snapshot() == old(Snapshot()).(sceneProperties := old(sceneProperties).(showGrid := checked))
    {
      sceneProperties := sceneProperties.(showGrid := checked);
    }

    method SetLightType(kind: LightKind)
      requires Valid()
      modifies this
      ensures Valid()
      ensures Snapshot() == old(Snapshot()).(lightProperties := old(lightProperties).(kind := kind))
    {
      lightProperties := lightProperties.(kind := kind);
    }

    /** The intensity slider, whose range input yields the whole numbers 0 to 10. */
    method SetLightIntensity(value: int)
      requires Valid()
      requires 0 <= value <= 10
      modifies this
      ensures Valid()
      ensures Snapshot() == old(Snapshot()).(lightProperties := old(lightProperties).(intensity := value))
    {
      lightProperties := lightProperties.(intensity := value);
    }

    /** The mesh-hierarchy panel: shown while toggled on and a model is resident. */
    method MeshHierarchyPanel() returns (entries: Option<seq<string>>)
      ensures entries.Some? <==> panels.showMeshHierarchy && model.Some?
      ensures entries.Some? ==> entries.value == MeshHierarchy(model)
      ensures entries.Some? ==> |entries.value| == |Preorder(model.value)|
    {
      if panels.showMeshHierarchy && model.Some? {
        var listed := PrintMeshHierarchy(model);
        MeshHierarchySpec(model);
        entries := Some(listed);
      } else {
        entries := None;
      }
    }
  }

  /**
   * With the overlay shown and textures loaded, `k` ticks from index 0 leave
   * the index at `k mod textures.length`, and the hull shows that frame.
   */
  method TicksFromStart(app: App, k: nat)
    requires app.Valid() && app.isCorrosionVisible && |app.textures| > 0 && app.currentTextureIndex == 0
    modifies app
    ensures app.Valid()
    ensures app.textures == old(app.textures) && app.isCorrosionVisible
    ensures app.currentTextureIndex == k % |app.textures|
    ensures app.model.Some? ==> HullShowsFrame(app.model.value, Some(app.textures[k % |app.textures|].texture))
  {
    var n := 0;
    while n < k
      invariant 0 <= n <= k
      invariant app.Valid() && app.isCorrosionVisible && app.textures == old(app.textures)
      invariant app.currentTextureIndex == RoundRobin.AdvanceTimes(0, |app.textures|, n)
    {
      app.TextureTick();
      n := n + 1;
    }
    RoundRobin.AdvanceTimesFromZero(|app.textures|, k);
  }
}
