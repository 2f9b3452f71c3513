# Bunny viewer core in Dafny

A model of the computational core of a small OpenGL model viewer (`main.cpp`).
The viewer loads one OBJ mesh, deduplicates its vertices into a global vertex
buffer and index buffer, picks texture formats for the requested channel
layout, sizes its uniform block, and drives an orbit/zoom camera from four
input callbacks.

The model has six modules:

- `Mesh` (mesh.dfy). The `Vertex` record and its exact equality. The parser's
  flat attribute arrays and per-shape index lists. The candidate vertex
  loadModel builds for one face-vertex reference, and the stream of all
  candidates in file order.
- `Dedup` (dedup.dfy). The meaning of loadModel's loop. A pure fold `Load`
  over the candidate stream, starting from whatever the globals already hold
  and an empty map. Also the reference function `FirstSeen`, which gives the
  distinct values of a stream in first-occurrence order, and the lemmas that
  tie the two together.
- `Loader` (loader.dfy). The class `Scene` holds the two global buffers. Its
  method `LoadModel` is the nested loop over shapes and references that
  updates the buffers and a local map. It is proved equal to `Load`, and from
  that it inherits the properties proved in `Dedup`. Also a worked example:
  three triangles that share corners.
- `Texture` (texture.dfy). loadTexture's switch from the requested channel
  layout to the texture's internal format and the upload's pixel format.
- `Uniform` (uniform.dfy). The uniform block size, which is the larger of the
  block's 64 bytes and the device's offset alignment.
- `Input` (input.dfy). The key, mouse-button, cursor and scroll callbacks.
  Each is a pure transition on the camera and cursor state, and the class
  `Viewer` implements it over fields. Lemmas cover whole event sequences.

Float components are modelled as reals and compared structurally.
`static_cast<uint32_t>` of the vertex count is written out as reduction
modulo 2^32 (`Dedup.ToU32`). loadModel does not clear the globals before it
appends to them, so `Load` starts from arbitrary lists.

## Model

| member | source | states |
|---|---|---|
| Mesh.Candidate | main.cpp:345-359 | The vertex built for a reference has its position from the three floats at `3*vertex_index` with w = 1, its texcoord from the two floats at `2*texcoord_index`, and the colour opaque white |
| Mesh.CandidateEqual | main.cpp:53-61 | Two references give equal vertices exactly when their position triples and texcoord pairs are equal; the constant colour never tells two candidates apart |
| Mesh.Candidates | main.cpp:344-359 | The candidates of one shape: one per reference, in reference order |
| Mesh.Stream | main.cpp:343-359 | The candidate stream over all shapes has exactly as many entries as there are face-vertex references |
| Mesh.StreamAt | main.cpp:343-344 | Position `ReferenceCount(shapes[..s]) + i` of the stream is the candidate of reference i of shape s, so shapes are visited in order and each shape's references in order |
| Mesh.TrianglesGiveWholeTriangles | main.cpp:343-366 | If every shape consists of whole triangles, the number of indices pushed is a multiple of three |
| Dedup.ToU32 | main.cpp:362 | The cast to uint32 never increases a value and leaves values below 2^32 unchanged |
| Dedup.Step | main.cpp:361-366 | One iteration: the vertex ends up in the map; one index is appended, and it is the map's value for the vertex; a known vertex leaves the vertex list and map unchanged; a new vertex is appended and entered under the cast of the old vertex count |
| Dedup.FoldAppend | main.cpp:343-344 | Processing two streams one after the other is processing their concatenation; this is how the per-shape loop composes |
| Dedup.FirstSeenMembers | main.cpp:361-363 | The reference deduplication keeps exactly the values of the stream |
| Dedup.FirstSeenDistinct | main.cpp:361-363 | The reference deduplication keeps every value once |
| Dedup.FirstSeenCount | main.cpp:361-363 | The reference deduplication is as long as the stream has distinct values |
| Dedup.FoldInvariant | main.cpp:341-366 | After any stream prefix, the state satisfies the loop invariant. The old lists are prefixes of the new ones and the appended vertices are the first-seen values. The map's keys are the values seen so far, each under its vertex's position. Each pushed index is the map's value for its candidate |
| Dedup.LoadAppends | main.cpp:361-366 | The globals are only appended to: old vertices and old indices are prefixes of the new ones, and exactly one index is appended per reference |
| Dedup.LoadFirstSeen | main.cpp:361-364 | The appended vertices are exactly the distinct candidates in first-occurrence order |
| Dedup.LoadDistinct | main.cpp:361-364 | No two vertices appended by one call are equal |
| Dedup.LoadCount | main.cpp:361-364 | One call appends as many vertices as there are distinct candidates |
| Dedup.LoadIndicesInBounds | main.cpp:362-366 | Every index appended by a call is below the final vertex count, with or without wrap-around from the cast |
| Dedup.LoadMapPositions | main.cpp:341-363 | The map's keys are the distinct candidates. Each appended vertex at a position below 2^32 is mapped to that position |
| Dedup.LoadReconstructs | main.cpp:343-366 | The index list reconstructs the stream: while the vertex list fits in 2^32 entries, the vertex at the index pushed for candidate k is candidate k |
| Loader.Scene.constructor | main.cpp:73-74 | Both global buffers start empty |
| Loader.Scene.LoadModel | main.cpp:319-369 | The nested loop leaves the buffers equal to the fold `Load` of the candidate stream from the old buffers. The old buffers are prefixes of the new ones; one index is appended per reference; the new vertices are the first-seen distinct candidates; every new index is below the vertex count |
| Loader.ExampleStream | main.cpp:343-359 | For three triangles (0,1,2), (2,3,4), (4,5,0), the candidate stream is the nine corners in order |
| Loader.ExampleCornersDistinct | main.cpp:53-61 | Those nine corners are six distinct vertices |
| Loader.SharedCornersExample | main.cpp:319-369 | Loading that mesh into empty buffers gives six vertices and nine indices |
| Texture.FormatFor | main.cpp:412-422 | A request is reported as invalid exactly when it is not one of the four recognised layouts. A recognised request gets internal and transfer formats with that many channels; anything else falls back to RGBA8/RGBA |
| Texture.FormatsAgree | main.cpp:412-422 | For every request, the storage format and the upload format have the same channel count |
| Texture.FallbackIsRgbAlpha | main.cpp:415-420 | An unrecognised request gets the same formats as a four-channel request |
| Texture.DefaultRequestReported | main.cpp:412-422 | Requesting the file's own layout (`STBI_default`) is reported as invalid and uploaded as RGBA8/RGBA |
| Texture.RecognisedInjective | main.cpp:415-418 | Distinct recognised requests get distinct internal formats and distinct transfer formats |
| Uniform.BlockSize | main.cpp:194-196 | The block size is at least the 64-byte matrix block and at least the alignment, and it is one of the two |
| Uniform.BlockSizeAligned | main.cpp:194-196 | For a power-of-two alignment, the block size is a whole multiple of the alignment |
| Input.OnKey | main.cpp:273-277 | The close flag is set exactly when it already was or the event is an Escape press; nothing else changes |
| Input.OnMouseButton | main.cpp:282-293 | Non-left buttons change nothing. After a left-button event, dragging holds exactly when it was a press. Only a left press records the cursor position. Zoom, rotation and the close flag never change |
| Input.OnCursorPos | main.cpp:298-307 | When not dragging, nothing changes. While dragging, the rotation moves by a tenth of the displacement from the recorded cursor and the new position is recorded |
| Input.OnScroll | main.cpp:312-317 | Zoom moves by a quarter of the vertical offset and is clamped at zero, so it is never negative; nothing else changes |
| Input.ZoomStaysNonNegative | main.cpp:312-317 | Starting from a non-negative zoom, no event sequence makes zoom negative |
| Input.ZoomNeverNegative | main.cpp:49 | From the initial state (zoom 40), no event sequence makes zoom negative |
| Input.CloseOnlyOnEscape | main.cpp:273-277 | After any event sequence, the window is asked to close exactly when it already was or some event was an Escape press |
| Input.NoPressNoRotation | main.cpp:282-307 | Without a left-button press, a viewer that is not dragging keeps its rotation and recorded cursor and never starts dragging |
| Input.NoScrollNoZoom | main.cpp:312-317 | Without a scroll event, zoom does not change |
| Input.DragAccumulates | main.cpp:298-307 | Moving the cursor through a sequence of points while dragging changes the rotation by a tenth of the displacement from the recorded position to the last point, and records the last point |
| Input.Viewer.constructor | main.cpp:48-51 | The camera starts at zoom 40 and rotation (0, 0), with the cursor globals zero, the cursor not captured and the window open |
| Input.Viewer.KeyCallback | main.cpp:273-277 | The callback's effect on the fields is `OnKey` |
| Input.Viewer.MouseButtonCallback | main.cpp:282-293 | The callback's effect on the fields is `OnMouseButton`, with the queried cursor position as a parameter |
| Input.Viewer.CursorPositionCallback | main.cpp:298-307 | The callback's effect on the fields is `OnCursorPos` |
| Input.Viewer.ScrollCallback | main.cpp:312-317 | The callback's effect on the fields is `OnScroll`, and zoom is non-negative afterwards |

## Left out

- The OBJ parser (tinyobj::LoadObj), its warnings and errors, and the failure message. The parser's output is the `Attrib` and the shapes' index lists handed to `LoadModel`.
- Loader.Scene.LoadModel: requires every reference to index inside the attribute arrays. The source reads those arrays unchecked, and an OBJ file without texture coordinates (texcoord index -1) reads out of range; that undefined behaviour is not modelled.
- Dedup.LoadReconstructs: the reconstruction is stated only while the vertex list has at most 2^32 entries. Beyond that, the uint32 cast wraps and the pushed index names an earlier vertex. The bounds property (`LoadIndicesInBounds`) holds regardless.
- Float semantics. Components are reals, so NaN (never equal to itself) and signed zero (equal to zero) are not modelled, and neither are the float and double conversions of the callbacks.
- The hash specialisation for `Vertex` affects only performance, not which vertices are kept.
- Calling loadModel twice without clearing the globals appends the second mesh's vertices again, because the map is local to each call. The model states this behaviour (it starts from arbitrary buffers) but proves nothing about repeated loads.
- The image decoder, createTexture2D and the GL texture calls. Only the format choice is modelled. The diagnostic message is the `invalid` flag.
- The device query for the alignment is a parameter of `BlockSize`. Buffer creation, mapping and the per-frame upload are not modelled.
- The windowing library. Cursor capture is the `dragging` flag and the close request is the `shouldClose` flag. The cursor position queried on a press is a parameter. The scancode and mods arguments are ignored by the source and are omitted.
- The frame loop, shader compilation and linking (checkShader, checkProgram), the camera matrix, the FPS counter and the draw call are rendering and I/O glue outside this model.
