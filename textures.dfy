/**
 * The corrosion texture sequence: ten images loaded once at start-up, all or
 * nothing, each tagged with its path and a synthetic capture time.
 */
module Textures {
  import opened Wrappers
  import SceneTree

  /** One loaded frame: `{ timestamp, texture, path }`, the timestamp in milliseconds. */
  datatype TextureFrame = TextureFrame(timestamp: int, texture: SceneTree.TextureId, path: string)

  /** The progressive-corrosion images, in display order. */
  const ImagePaths: seq<string> := [
    "/147_Jan_img1.jpg", "/288_Feb_img2.png", "/321_Mar_img3.png", "/456_Apr_img4.png",
    "/591_May_img5.png", "/694_June_img6.png", "/738_July_img7.png", "/834_Aug_img8.png",
    "/915_Sept_img9.png", "/999_Oct_img10.png"
  ]

  /** Frames are dated 10 seconds apart, going back from the load time. */
  const FrameSpacingMs: int := 10 * 1000

  /**
   * `Promise.all` over the loads: every decoded texture in input order (not in
   * completion order), or nothing once any single load fails.
   */
  function LoadAll(imagePaths: seq<string>, decode: string -> Option<SceneTree.TextureId>): (r: Option<seq<SceneTree.TextureId>>)
    ensures r.Some? <==> forall i :: 0 <= i < |imagePaths| ==> decode(imagePaths[i]).Some?
    ensures r.Some? ==> |r.value| == |imagePaths|
    ensures r.Some? ==> forall i :: 0 <= i < |imagePaths| ==> Some(r.value[i]) == decode(imagePaths[i])
  {
    if imagePaths == [] then Some([])
    else match (decode(imagePaths[0]), LoadAll(imagePaths[1..], decode))
      case (Some(t), Some(rest)) =>
        assert forall i :: 1 <= i < |imagePaths| ==> imagePaths[i] == imagePaths[1..][i - 1];
        Some([t] + rest)
      case (None, _) => None
      case (_, None) =>
        assert forall i :: 1 <= i < |imagePaths| ==> imagePaths[i] == imagePaths[1..][i - 1];
        None
  }

  /**
   * `loadTextures(imagePaths)` where `decode` stands for the texture loader and
   * `now` for `Date.now()`: frame `i` carries the i-th path, the texture
   * decoded from it and the time `now - i * 10 s`; any failure gives `[]`.
   */
  function LoadTextures(imagePaths: seq<string>, decode: string -> Option<SceneTree.TextureId>, now: int): (frames: seq<TextureFrame>)
    ensures frames == [] || |frames| == |imagePaths|
    ensures forall i :: 0 <= i < |frames| ==>
      && frames[i].path == imagePaths[i]
      && frames[i].timestamp == now - i * FrameSpacingMs
      && decode(imagePaths[i]) == Some(frames[i].texture)
  {
    match LoadAll(imagePaths, decode)
    case None => []
    case Some(textures) =>
      seq(|textures|, index requires 0 <= index < |textures| =>
        TextureFrame(now - index * FrameSpacingMs, textures[index], imagePaths[index]))
  }

  /** When every load succeeds, the frames follow the paths one for one. */
  lemma LoadTexturesSucceeds(imagePaths: seq<string>, decode: string -> Option<SceneTree.TextureId>, now: int)
    requires forall i :: 0 <= i < |imagePaths| ==> decode(imagePaths[i]).Some?
    ensures |LoadTextures(imagePaths, decode, now)| == |imagePaths|
    ensures forall i :: 0 <= i < |imagePaths| ==>
      LoadTextures(imagePaths, decode, now)[i] == TextureFrame(now - i * 10000, decode(imagePaths[i]).value, imagePaths[i])
  {
  }

  /** When any one load fails, the result is empty. */
  lemma LoadTexturesFails(imagePaths: seq<string>, decode: string -> Option<SceneTree.TextureId>, now: int, failed: nat)
    requires failed < |imagePaths| && decode(imagePaths[failed]).None?
    ensures LoadTextures(imagePaths, decode, now) == []
  {
  }

  /**
   * The start-up load of the ten corrosion images: ten frames, the newest
   * first and the last one dated 90 s before the load, when every image
   * decodes; no frames at all when any one of them fails.
   */
  lemma StartupTextures(decode: string -> Option<SceneTree.TextureId>, now: int)
    ensures |ImagePaths| == 10
    ensures (forall i :: 0 <= i < |ImagePaths| ==> decode(ImagePaths[i]).Some?) ==>
      && |LoadTextures(ImagePaths, decode, now)| == 10
      && LoadTextures(ImagePaths, decode, now)[0].timestamp == now
      && LoadTextures(ImagePaths, decode, now)[9].timestamp == now - 90000
      && LoadTextures(ImagePaths, decode, now)[9].path == "/999_Oct_img10.png"
    ensures (exists i :: 0 <= i < |ImagePaths| && decode(ImagePaths[i]).None?) ==>
      LoadTextures(ImagePaths, decode, now) == []
  {
    if forall i :: 0 <= i < |ImagePaths| ==> decode(ImagePaths[i]).Some? {
      LoadTexturesSucceeds(ImagePaths, decode, now);
    } else {
      var failed :| 0 <= failed < |ImagePaths| && decode(ImagePaths[failed]).None?;
      LoadTexturesFails(ImagePaths, decode, now, failed);
    }
  }

  /** `textures[currentTextureIndex]?.texture || null`: a missing entry gives no texture. */
  function FrameTexture(textures: seq<TextureFrame>, index: nat): (tex: Option<SceneTree.TextureId>)
    ensures index < |textures| <==> tex.Some?
    ensures index < |textures| ==> tex.value == textures[index].texture
  {
    if index < |textures| then Some(textures[index].texture) else None
  }
}
