# Ship hull corrosion digital twin — a verified model of the viewer's logic

The system is a browser viewer for a digital twin of a ship's hull. It loads a 3D model of the
ship and shows five clickable hotspot markers on the hull (keel, waterline, propeller, bow
thruster, engine). A click on a marker opens its info panel and flies the camera to the marker.
The panel shows a fixed description of that location. It also shows resistance and corrosion
readings fetched from a tabular data endpoint, cycling through ten readings every five
seconds. A "progressive corrosion" overlay cycles ten texture images on the hull mesh named
`Hull_3`, one every five seconds. Clicking a mesh selects and outlines it. Side panels list the
mesh hierarchy and expose scene, light and mesh properties, including wireframe display.

This project models that logic over plain data. The logic comes out of React and three.js:
- the scene graph is a tree datatype;
- the data endpoint's answer is a sequence of rows;
- timers, loads and clicks are explicit events.

The modules are these:

- `RoundRobin`: the `(prev + 1) % length` cycle that both the marker's reading index and the
  viewer's texture index follow, with its k-step and full-cycle laws.
- `MarkerData`: the pure part of a marker.
  - The description table.
  - The first-match row lookup.
  - The positional extraction of `resistance1..10` and `corrosion1..10`.
  - The `N/A` and `Error` sentinels.
- `Hotspot`: the marker as a class.
  - Its fields are the marker's state: visibility, flight target, description, the two series
    and the display index.
  - It has one method per event: a click, a fetch settling, a timer tick and the camera
    spring coming to rest.
  - The camera flight destination and the five scene hotspots are here too.
- `SceneTree`: the node tree, with these parts:
  - pre-order traversal;
  - the three material passes: the scene wireframe, the `Hull_3` texture and the selected
    mesh's wireframe;
  - the mesh-hierarchy listing, as the source's imperative accumulator walk, together with an
    independent reference definition based on the chain of names from the root.
- `Textures`: `loadTextures`, which is all-or-nothing loading in input order with synthetic
  timestamps, and the frame lookup `textures[i]?.texture || null`.
- `Viewer`: the application state as a class. It has one method per event.
  - Each method also runs the effects whose dependencies that event changes, as React does
    after the state update. These are the `Hull_3` texture pass when the frame index, the
    textures or the model change, and the scene wireframe pass when the scene flag changes.
  - The class invariant is `Valid()`. It says four things:
    - the nodes of a resident model have pairwise distinct ids, which the selected-mesh
      wireframe edit relies on;
    - the hull meshes of a resident model show the current frame;
    - the selection is a mesh;
    - the outline set is empty or exactly the selection.

Four behaviours of the code are easy to misread, and the model keeps them as written:

- The `Hull_3` texture pass updates every mesh named exactly `Hull_3` that the traversal
  visits, not only the first one in traversal order (src/App.jsx:150-155).
- When the frame index designates no loaded frame, the pass still runs. It sets the hull's
  texture to `null` and raises `needsUpdate` (src/App.jsx:152-153).
- A newly loaded model replaces the old one, and the selected mesh is kept. Nothing in the
  load handler clears it (src/App.jsx:137-145).
- The scene wireframe pass runs only when the scene's wireframe flag changes. Its effect
  depends on the scene and the flag, not on the model (src/App.jsx:416-422). So a model that
  finishes loading afterwards keeps its own flags until the checkbox changes again
  (`Viewer.App.ModelLoaded`).

Inputs the environment supplies become parameters:
- `Date.now()` becomes `now`;
- the texture decoder becomes `decode`;
- the raycaster's nearest-first hit list becomes `intersects`;
- the fetch's settled outcome becomes `FetchOutcome`.

## Model

| member | source | states |
|---|---|---|
| RoundRobin.Advance | src/App.jsx:120-123 | the next index is below the length; it is `prev + 1` when that is in range and wraps to 0 exactly at the end |
| RoundRobin.AdvanceTimes | src/components/Hotspot.jsx:109-117 | after at least one tick, or from an in-range start, the index is in range |
| RoundRobin.AdvanceTimesFromZero | src/App.jsx:116-127 | k ticks from index 0 leave the index at `k mod length` |
| RoundRobin.AdvanceTimesOffset | src/components/Hotspot.jsx:109-117 | k ticks from any in-range index `s` leave it at `(s + k) mod length` |
| RoundRobin.AdvanceFullCycle | src/components/Hotspot.jsx:113 | `length` ticks bring any in-range index back to itself |
| MarkerData.Description | src/components/Hotspot.jsx:30-36 | the description is non-empty exactly for the five known labels, and then it is that label's table entry; it is `''` for every other label |
| MarkerData.FirstMatch | src/components/Hotspot.jsx:69 | a found index is in range and its row's `text` equals the label, no earlier row matches, and nothing is found exactly when no row matches |
| MarkerData.ColumnsAreNumbered | src/components/Hotspot.jsx:71-94 | the two column lists are `resistance1..resistance10` and `corrosion1..corrosion10`, ten each, in ascending order |
| MarkerData.Get | src/components/Hotspot.jsx:72-93 | a column reads as text exactly when the row has that column, and then it is the row's value; an absent column reads `undefined` |
| MarkerData.Matches | src/components/Hotspot.jsx:69 | a row matches a label exactly when its `text` column is present and strictly equal to the label, so a row without `text` never matches |
| MarkerData.ReadingsFor | src/components/Hotspot.jsx:54-104 | after any fetch outcome both series have the same length, and it is 10 or 1 |
| MarkerData.ReadingsOnFailure | src/components/Hotspot.jsx:100-104 | a non-ok response (src/components/Hotspot.jsx:54-56) or a transport failure gives `['Error']` for both series |
| MarkerData.ReadingsWithoutMatch | src/components/Hotspot.jsx:95-98 | rows that match no label give `['N/A']` for both series |
| MarkerData.ReadingsFromFirstMatch | src/components/Hotspot.jsx:69-94 | with row i the first match, the series have length 10 and entry k is column `resistance<k+1>` (resp. `corrosion<k+1>`) of row i, `undefined` when the column is absent |
| MarkerData.ReadingsIgnoreOtherRows | src/components/Hotspot.jsx:69 | a row with another label in front of the rows changes no reading |
| Hotspot.FlightTo | src/components/Hotspot.jsx:134-140 | the flight looks at the target, and the camera goes to the target plus the offset (-5, 3, 6), coordinate by coordinate |
| Hotspot.At | src/components/Hotspot.jsx:191 | indexing a series yields its entry in range and `undefined` past the end |
| Hotspot.Marker.constructor | src/components/Hotspot.jsx:11-27 | a new marker is collapsed, has no target, an empty description, empty series and index 0 |
| Hotspot.Marker.Click | src/components/Hotspot.jsx:39-47 | visibility flips; the target is the marker's own position on both expand and collapse; the description comes from the table; series and index are unchanged; a fetch is issued exactly when the panel becomes visible (src/components/Hotspot.jsx:65-67) |
| Hotspot.Marker.FetchSettled | src/components/Hotspot.jsx:65-106 | both series become the readings for the outcome, even after a collapse; the index is not clamped; nothing else changes |
| Hotspot.Marker.Tick | src/components/Hotspot.jsx:109-117 | while visible the index advances round-robin over the series length and is then in range for both series; a collapsed marker is unchanged |
| Hotspot.Marker.Rest | src/components/Hotspot.jsx:128-130 | the spring coming to rest clears the target and changes nothing else |
| Hotspot.Marker.ResistanceShown | src/components/Hotspot.jsx:182-193 | the resistance line is shown exactly while the panel is open and the series is non-empty; it shows the entry at the index, and `undefined` when the index is past the end |
| Hotspot.Marker.CorrosionShown | src/components/Hotspot.jsx:194-205 | the corrosion line is shown exactly while the panel is open and the series is non-empty; it shows the entry at the index, and `undefined` when the index is past the end |
| Hotspot.TickThenRead | src/components/Hotspot.jsx:113 | right after a tick of an open marker with data, both lines show real entries at the same index |
| Hotspot.SceneHotspotsDescribed | src/App.jsx:383-389 | every one of the five scene hotspots has a description, and every described label has a hotspot |
| SceneTree.Apply | src/App.jsx:151-153 | a callback keeps whether a node is a mesh and never touches a non-mesh; only the texture pass changes the texture and `needsUpdate`, and it keeps the wireframe flag; the texture pass changes only meshes named `Hull_3`, and the selected-mesh edit (src/App.jsx:96) only the node with the selected id; the scene pass (src/App.jsx:418-420) sets only the wireframe flag |
| SceneTree.Visit | src/App.jsx:150-155 | the callback keeps a node's id and name |
| SceneTree.Traverse | src/App.jsx:150-155 | a traversal keeps the root's id and name and its number of children |
| SceneTree.VisitAllAppend | src/App.jsx:150 | visiting two runs of nodes in a row is visiting their concatenation |
| SceneTree.TraversePreorder | src/App.jsx:150-155 | a traversal rewrites every node exactly once, in pre-order, and adds or drops none |
| SceneTree.TraverseFuse | src/App.jsx:417-421 | two traversals in a row equal one, when the second callback after the first agrees with a third |
| SceneTree.SceneWireframeEffect | src/App.jsx:416-422 | every mesh's wireframe flag becomes the scene's flag with the rest of its material kept; non-mesh nodes are untouched |
| SceneTree.SceneWireframeIdempotent | src/App.jsx:416-422 | running the wireframe pass twice with the same flag equals running it once |
| SceneTree.SceneWireframeLastWins | src/App.jsx:416-422 | of two wireframe passes only the last one's flag remains |
| SceneTree.HullTextureEffect | src/App.jsx:148-157 | every mesh named exactly `Hull_3` gets the frame's texture (or none) and `needsUpdate`; every other node is unchanged |
| SceneTree.WireframeKeepsHullFrame | src/App.jsx:94-99 | neither wireframe pass changes the texture shown on the hull meshes |
| SceneTree.MeshWireframeEffect | src/App.jsx:94-99 | the meshes with the selected id take the checkbox value; every other node is unchanged |
| SceneTree.TraverseKeepsIds | src/App.jsx:150-155 | a traversal of a tree with distinct ids leaves them distinct |
| SceneTree.MeshWireframeChangesAtMostOne | src/App.jsx:94-99 | in a tree with distinct ids, the selected-mesh edit changes at most one node |
| SceneTree.DisplayName | src/App.jsx:176 | a display name is never empty; it is the node's own name when that is non-empty, and `'Unnamed'` when it is empty |
| SceneTree.PathOf | src/App.jsx:176 | a path entry is never empty |
| SceneTree.Hierarchy | src/App.jsx:175-181 | the first entry of a subtree's listing is the path of its root below the given path |
| SceneTree.MeshHierarchy | src/App.jsx:172-184 | a missing model lists nothing; otherwise there is one entry per node, and the first is the root's display name |
| SceneTree.PrintMeshHierarchy | src/App.jsx:172-184 | the accumulator walk returns the listing `MeshHierarchy` |
| SceneTree.Walk | src/App.jsx:175-181 | the inner walk appends exactly the entries of its subtree, in pre-order, to what was pushed before |
| SceneTree.JoinNames | src/App.jsx:176 | a joined path is never empty |
| SceneTree.JoinNamesSnoc | src/App.jsx:176 | extending a chain by a node appends `" > "` and that node's display name |
| SceneTree.AncestryShape | src/App.jsx:175-181 | there is one root-to-node chain per node in pre-order; it starts at the root and ends at its node |
| SceneTree.ParentListedEarlier | src/App.jsx:179 | every chain but the root's extends the chain of a node listed earlier, its parent |
| SceneTree.EntriesExtendParent | src/App.jsx:176-179 | every entry but the root's is the entry of its parent, listed earlier, followed by `" > "` and its own display name |
| SceneTree.HierarchySpelled | src/App.jsx:175-181 | each entry the walk pushes below a path is that path followed by its node's chain of names |
| SceneTree.MeshHierarchySpec | src/App.jsx:172-184 | a missing model lists nothing; otherwise there is one entry per node in pre-order, with the root's display name first; every entry is its root-to-node chain of names joined by `" > "`; every other node's entry is its parent's earlier entry followed by `" > "` and its own display name |
| Textures.LoadAll | src/App.jsx:35-36 | all loads succeed exactly when every path decodes; then the textures follow the paths one for one, in input order |
| Textures.LoadTextures | src/App.jsx:33-46 | the result is `[]` or has one frame per path; frame i has path `imagePaths[i]`, timestamp `now - i * 10000` ms and the texture that path decodes to |
| Textures.LoadTexturesSucceeds | src/App.jsx:33-41 | on success there is one frame per path, and frame i has path `imagePaths[i]`, the decoded texture and timestamp `now - i * 10000` ms |
| Textures.LoadTexturesFails | src/App.jsx:42-45 | a single failed load makes the result `[]` |
| Textures.StartupTextures | src/App.jsx:49-60 | the start-up load of the ten images (src/App.jsx:106-113) gives ten frames, the first dated at the load and the last, `/999_Oct_img10.png`, 90 s earlier, when every image decodes, and no frames when any one fails |
| Textures.FrameTexture | src/App.jsx:152 | the frame's texture exists exactly when the index is in range; otherwise it is `null` |
| Viewer.PickedMesh | src/App.jsx:349-361 | an object is picked exactly when the nearest hit is a mesh, and it is that hit |
| Viewer.App.constructor | src/App.jsx:64-103 | the initial state: no model, no textures, index 0, overlay hidden, nothing selected, panels closed, the default scene and light properties |
| Viewer.App.CurrentFrame | src/App.jsx:152 | the current frame's texture exists exactly when the index is below the number of loaded frames |
| Viewer.App.ModelLoaded | src/App.jsx:137-157 | a scene with distinct node ids becomes the model, with the texture pass applied for the current frame; selection and scene flags are unchanged |
| Viewer.App.TexturesLoaded | src/App.jsx:106-113 | the loaded frames are stored and the texture pass re-runs on a resident model; the hull shows the current frame |
| Viewer.App.TextureTick | src/App.jsx:116-127 | while the overlay is shown and textures exist the index advances round-robin, and the hull follows it (src/App.jsx:148-157); otherwise the index is unchanged |
| Viewer.TicksFromStart | src/App.jsx:116-127 | k texture ticks from index 0 leave the index at `k mod textures.length`, with the hull showing that frame |
| Viewer.App.ToggleCorrosion | src/App.jsx:247 | the overlay flag flips and nothing else changes |
| Viewer.App.CanvasClick | src/App.jsx:349-361 | a mesh as nearest hit becomes the selection and the sole outlined object; no hit, or a non-mesh nearest hit, changes nothing |
| Viewer.App.SetSceneWireframe | src/App.jsx:270 | the scene flag is set, and when it changed the wireframe pass runs over the model (src/App.jsx:416-422) |
| Viewer.App.SetMeshWireframe | src/App.jsx:94-99 | with a selection, that mesh's wireframe flag takes the checkbox value, and at most one node of the model changes; without one nothing changes |
| Viewer.App.ToggleDescription | src/App.jsx:88-90 | the description flag flips and nothing else changes |
| Viewer.App.ToggleMeshProperties | src/App.jsx:164-166 | the mesh-properties flag flips and nothing else changes |
| Viewer.App.ToggleMeshHierarchy | src/App.jsx:168-170 | the mesh-hierarchy flag flips and nothing else changes |
| Viewer.App.ToggleScenePanel | src/App.jsx:210 | the scene panel alternates between open and closed and nothing else changes |
| Viewer.App.SetShowGrid | src/App.jsx:278 | the grid flag takes the checkbox value and nothing else changes |
| Viewer.App.SetLightType | src/App.jsx:286 | the light kind takes the selected value and nothing else changes |
| Viewer.App.SetLightIntensity | src/App.jsx:296-300 | the intensity takes the slider value (the whole numbers 0 to 10) and nothing else changes |
| Viewer.App.MeshHierarchyPanel | src/App.jsx:251-260 | the panel lists something exactly while it is open and a model is resident, and then it lists one entry per node of the model |

## Left out

- The data server (`src/server.js`, routing, file reading and CSV parsing): its answer enters only as the row sequence of `FetchOutcome.Ok`, with every value text as header-mode CSV parsing yields.
- The React bootstrap (`src/main.jsx`): it does no logic.
- Rendering and the 3D engine:
  - `EffectComposer`, `RenderPass`, `OutlinePass` drawing and `AnimationMixer` playback are three.js internals;
  - GLTF and image decoding become the parameter `decode` and a given scene tree;
  - the raycaster's geometry and distance ordering become the given hit list.
- Mounting and unmounting the model into the render root (`scene.add`/`scene.remove`): this is scene bookkeeping with no state of its own.
- Pointer-to-device-coordinate and light-position arithmetic (src/App.jsx:333-342): this is floating-point normalisation against DOM rectangles.
- Hotspot.FlightTo: coordinates are real numbers, so the IEEE double rounding of three.js `Vector3.add` is not modelled.
- Viewer.App.ModelLoaded: requires that the scene's node ids are distinct, as three.js numbers every object it creates; the GLTF loader is not modelled.
- The camera spring physics (mass, tension, friction): only the flight destination and the target set and clear events are modelled.
- Timers, promises and clocks:
  - intervals become explicit tick events;
  - `Promise.all` concurrency becomes its combined success-or-failure result;
  - `Date.now()` becomes the single parameter `now`. The source reads the clock once per frame, so two frames may differ by a few milliseconds more than 10 s.
- Hotspot.Marker.Tick: requires a non-empty series while the panel is open. In the source, a tick that fires before the first fetch settles computes `NaN` as the next index.
- Hotspot.Marker.Click: the `onCameraFocus` callback is not modelled, because the viewer never passes it.
- The `onClick` prop the scene passes to each hotspot: it is not modelled. It calls the undefined `handleHotspotClick`, and the hotspot never reads that prop.
- The directional-light pointer update (src/App.jsx:443): it is not modelled, because it calls `setLightProperties`, which is out of scope in that component.
- `sceneProperties.autoRotate`: it is not modelled, because it is never defined.
- Sharing of one material object by several meshes: each mesh owns its material value here, so aliasing through a shared material is not captured.
- `needsUpdate`: it is a plain flag here, whereas it is a version-bumping setter in three.js.
- The scene wireframe pass covers the loaded model only, not the hotspot spheres and the grid that also sit in the scene.
- Viewer.App.SetMeshWireframe: the edit is keyed on the selected mesh's id. A selection that is not part of the current model makes it a no-op here; in the source it mutates that detached mesh.
- Description lookups of inherited object keys such as `"constructor"` (a JavaScript prototype artefact): labels are plain table keys here.
- The colour edit (src/App.jsx:225): it changes the selected mesh's material colour in place, but `Material` carries no colour, so this edit is not modelled.
- The vertex, edge and triangle counts (src/App.jsx:240-242) and the wording of the panels: these are display-only.
- `console` logging: it has no effect on state.
- React's development re-running of effects: it is not modelled.
