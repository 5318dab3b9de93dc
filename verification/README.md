# lge core in Dafny

A Dafny model of two parts of the `lge` Vulkan engine, with proofs about them.

- **Frame orchestration** (`first_app.cpp`, module `App` in `first_app.dfy`).
  - `FirstApp` is a class. Its state is:
    - the current swap chain: its identity, which also names its render pass, its image count, its extent, and the chain it replaced;
    - the pipeline, recorded with the render pass it was built for;
    - the command buffers, as handles taken from an allocator, plus the set the command pool still holds;
    - the window's resized flag;
    - a trace of recordings and submissions.
  - The engine's operations are methods on that class: `drawFrame`, `recreateSwapChain`, `createCommandBuffers`, `freeCommandBuffers`, `createPipeline`, `recordCommandBuffer`, the constructor and the `run` loop.
  - Whatever the device and the window report arrives as parameters: acquire and submit `VkResult` codes (with their Vulkan values), the acquired image index, the image count of a new chain, and the polls of the wait loop in `recreateSwapChain`. Each poll is the extent the window reports plus whether the following `glfwWaitEvents` delivered a resize.
  - `PlanFrame` is the pure decision table of one frame. `Simulate` is a whole run reduced to the resized flag. `Feasible` says which runs `run` can perform: each acquired index fits the chain current at that frame, and each wait ends.
  - `Valid()` is the invariant between frames:
    - one command buffer per swap-chain image;
    - a pipeline for the current render pass;
    - a non-zero extent;
    - no allocated buffer that is not in the list;
    - every recording bound a pipeline matching its render pass.
- **Mesh building and drawing** (`src/lge_model.cpp`, module `Model` in `model.dfy`).
  - The OBJ loader's output (`attrib` arrays and per-shape index triples) is an input.
  - `CornerVertex` is the per-corner attribute extraction. `Corners` flattens all shapes in order.
  - `Dedup` is the deduplication as a function over a `map<Vertex, nat>`.
  - `Builder.LoadModel` is the nested loop, proved equal to `Dedup` of `Corners`.
  - `Deduplicates` states independently what a deduplicated mesh is. The lemmas prove that `Dedup` meets it and is the only result that does.
  - `LgeModel` holds the vertex and index buffers, with their `uint32_t` counts truncated explicitly. `Bind` and `Draw` return the commands they record.

Floats are modelled as `real`. `wrappers.dfy` holds the shared `Option` and `Outcome` types. A thrown `std::runtime_error` is modelled as follows:
- in `Model`, as the `Outcome` value `Fail(message)`;
- in `App`, a frame that throws ends in `FrameOutcome.Failed(message)`;
- `App.FirstApp.Run` returns the message that escapes the loop as `Some(message)`, and `None` when the loop ends normally.

On the colour read in `loadModel` (lines 168-175): the guard tests `3*vi+2 < colors.size()` and then reads `colors[3*vi .. 3*vi+2]`. So the guard tests that a whole RGB triple exists for this position, and `Model.CornerVertex`'s contract states it in those terms.

## Model

| member | source | states |
|---|---|---|
| App.PlanFrameDecides | first_app.cpp:216-241 | For `PlanFrame`, the decision of one frame: an out-of-date acquire, and only that, drops the frame. Any acquire other than success, sub-optimal or out-of-date fails with the acquire message. A frame records and submits iff acquire is success or sub-optimal. After a submit, the chain is recreated iff the result is out-of-date or sub-optimal or the window was resized. After a submit, a result other than success that did not cause recreation fails with the present message. Recoverable codes never fail. |
| App.FirstNonZero | first_app.cpp:100-104 | The wait loop stops at the first poll with non-zero width and height. Every earlier poll had a zero dimension. |
| App.FirstApp.constructor | first_app.cpp:23-28 | The pipeline layout, then the first chain (no predecessor, extent from the first non-zero poll) with its pipeline, then the buffers. Afterwards `Valid()` holds and there is one command buffer per image. The resized flag is set iff a resize arrived during the initial wait. |
| App.FirstApp.WaitForExtent | first_app.cpp:100-104 | The wait ends with exactly the first non-zero polled extent. A resize delivered by any `glfwWaitEvents` it performs raises the flag, and nothing else changes it. |
| App.FirstApp.CreatePipelineLayout | first_app.cpp:66-84 | Afterwards a pipeline layout exists. |
| App.FirstApp.CreatePipeline | first_app.cpp:86-97 | Requires a chain and a layout, as the source's asserts do. The new pipeline is built for the current chain's render pass. |
| App.FirstApp.CreateCommandBuffers | first_app.cpp:119-132 | The list becomes exactly `imageCount` fresh, distinct handles. The pool gains exactly those. |
| App.FirstApp.FreeCommandBuffers | first_app.cpp:134-142 | Every listed buffer goes back to the pool, and the list is empty. |
| App.FirstApp.RecordCommandBuffer | first_app.cpp:144-187 | Requires `imageIndex < commandBuffers.size()`. Records that image's buffer into the current render pass, with the current pipeline, over the chain's extent. |
| App.FirstApp.RecreateSwapChain | first_app.cpp:99-117 | The new chain has exactly the first non-zero polled extent and is chained to the old chain's id. A resize delivered while waiting raises the flag. If the image count is unchanged, or there was no chain before, the buffers and the pool are untouched. Otherwise the old buffers are freed and `imageCount` fresh ones are allocated. The pipeline is rebuilt for the new render pass in every case. `Valid()` is preserved. |
| App.FirstApp.DrawFrame | first_app.cpp:216-241 | The outcome is `PlanFrame` for the flag as it stood at the start. Exactly one record and one submit of the acquired index's buffer iff the frame submits, and the trace is unchanged otherwise. The flag after the frame is `FlagAfter`: a recreation after a submit clears it, an out-of-date acquire keeps it, and in both cases a resize delivered during the recreation's wait raises it again. On recreation, the new chain, pipeline and buffer count are stated. Without recreation, the chain, pipeline, buffers and pool, and the allocators of chain, pipeline and buffer ids, are unchanged. `Valid()` is preserved. |
| App.FirstApp.RunFrame | first_app.cpp:37-40 | One loop pass: a polled resize event raises the flag, then the frame's outcome is `PlanFrame` for the raised flag. Like `drawFrame`, it needs only that an acquired index fits the current chain. The chain's image count afterwards is the new chain's iff the frame recreated. The flag afterwards is `FlagAfter`. A submitting frame appends exactly the recording and the submission of the acquired image's buffer, and the trace is otherwise unchanged; so the trace gains one submission iff the frame submits. On recreation, the new chain (first non-zero polled extent, chained to the old one), the pipeline for its render pass and the buffer count are stated. Without recreation, the chain, pipeline, buffers and pool, and the allocators of chain, pipeline and buffer ids, are unchanged. `Valid()` is kept. |
| App.FirstApp.Run | first_app.cpp:34-43 | For any `Feasible` run, the loop ends with the exception `Simulate` predicts, adds exactly the number of submissions `Simulate` predicts, and keeps `Valid()`. |
| App.Simulate | first_app.cpp:34-43 | A run submits at most one buffer per frame. Of the exceptions `drawFrame` throws itself, a run ends early only with the acquire or the present failure (the throws of the device layer are left out, see below). |
| App.SteadyRunDropsOnlyStaleFrames | first_app.cpp:216-241 | With no resize (polled or delivered while waiting), every submit succeeding, and each acquire either success or out-of-date, a run never fails and submits every frame except the out-of-date ones. |
| Model.CornerVertex | src/lge_model.cpp:160-187 | Position is the `vertex_index` triple. Colour is the `colors` triple when a whole triple exists, otherwise white. Normal is the `normal_index` triple. uv is `(t0, 1 - t1)` of the `texcoord_index` pair. A negative index leaves the zero default for its attributes. |
| Model.ShapeCorners | src/lge_model.cpp:159-187 | One corner vertex per index entry of a shape, in order. |
| Model.Corners | src/lge_model.cpp:158-187 | One corner per index entry over all shapes. |
| Model.CornersInOrder | src/lge_model.cpp:158-159 | Shapes are visited in order and each shape's indices in order. Entry `k` of shape `s` is the corner at position `IndexCount(shapes[..s]) + k`. |
| Model.FirstIndex | src/lge_model.cpp:189-190 | The first occurrence of a vertex: the vertex is at that position and does not occur before it. |
| Model.AddCorner | src/lge_model.cpp:189-193 | One inner-loop pass: exactly one more index, at most one more vertex, and the corner's vertex is in the map afterwards. |
| Model.AddCornerKeepsIndices | src/lge_model.cpp:189-192 | A vertex already in the map keeps the index it was first given. |
| Model.AddCornerStep | src/lge_model.cpp:189-193 | One inner-loop pass keeps the map consistent with the list. It appends the vertex only if unseen, and appends an index that selects the equal vertex. |
| Model.Dedup | src/lge_model.cpp:156-195 | The deduplication of a corner list: one index per corner, and never more vertices than corners. |
| Model.DedupConsistent | src/lge_model.cpp:189-192 | Each listed vertex maps to its own position, and the map's keys are exactly the corners seen. |
| Model.ConsistentDistinct | src/lge_model.cpp:189-192 | A consistent mesh lists no vertex twice. |
| Model.DedupIndices | src/lge_model.cpp:189-193 | Every index is in range and selects a vertex equal to its corner. |
| Model.AddCornerSelects | src/lge_model.cpp:189-193 | One pass keeps every index selecting the vertex of its corner, including the new one. |
| Model.DedupOrder | src/lge_model.cpp:189-192 | The vertices appear in the order of their first occurrence among the corners. |
| Model.DedupDeduplicates | src/lge_model.cpp:156-195 | The built mesh meets the independent definition `Deduplicates`. |
| Model.FirstOccurrenceOrderUnique | src/lge_model.cpp:189-192 | Two lists of the same vertices in first-occurrence order are equal. |
| Model.DeduplicatesMembers | src/lge_model.cpp:189-193 | The vertices of a deduplication are exactly the corners. |
| Model.DeduplicatesOnlyDedup | src/lge_model.cpp:156-195 | Any vertex and index lists meeting `Deduplicates` are the ones `loadModel` builds, so the output is determined. |
| Model.LoadedMeshInOrder | src/lge_model.cpp:158-195 | On loaded data: one index per index entry of every shape. The index of entry `k` of shape `s` sits at `IndexCount(shapes[..s]) + k` and selects a vertex equal to the one built from that entry. No vertex is listed twice, and the vertices are in the order of their first occurrence. |
| Model.Builder.constructor | src/lge_model.cpp:44 | A new builder has empty lists. |
| Model.Builder.LoadModel | src/lge_model.cpp:143-196 | A failed load throws `warn + err` and leaves both lists as they were. Otherwise both lists are `Dedup` of the corners of the loaded data, whatever they held before. |
| Model.LgeModel.constructor | src/lge_model.cpp:26-30 | The vertex buffer holds the builder's vertices, cut to the 32-bit count. The index buffer holds the builder's indices, cut to the 32-bit count, when there is one. The counts and sizes agree. Indices within range and counts below 2^32 give a model that never indexes past its vertex buffer. |
| Model.LgeModel.CreateVertexBuffers | src/lge_model.cpp:69-95 | `vertexCount` is the size cut to 32 bits and must be at least 3. The buffer holds that many vertices and is `sizeof(Vertex) * vertexCount` bytes. |
| Model.LgeModel.CreateIndexBuffers | src/lge_model.cpp:97-124 | `indexCount` is the size cut to 32 bits. `hasIndexBuffer` holds iff the count is not zero. Only then is a buffer of that many indices created, of `4 * indexCount` bytes. Otherwise no buffer is created. |
| Model.LgeModel.Bind | src/lge_model.cpp:50-58 | Always binds the vertex buffer. Binds the index buffer iff there is one. |
| Model.LgeModel.Draw | src/lge_model.cpp:60-67 | An indexed draw of the whole index buffer iff there is one, otherwise a plain draw of the whole vertex buffer, one instance either way. |
| Model.CreateModelFromFile | src/lge_model.cpp:42-48 | A failed load throws before any model exists. A loaded file gives a valid model whose vertex and index buffers hold the deduplicated mesh of the file (`Dedup` of its corners), cut to the 32-bit counts. With fewer than 2^32 index entries, no index reaches past the vertex buffer. |
| Model.BindingDescriptions | src/lge_model.cpp:126-132 | A single per-vertex binding 0 whose stride is one whole vertex. |
| Model.AttributeDescriptions | src/lge_model.cpp:134-141 | Position at location 0 and colour at location 1, both on binding 0. Location 0 starts at the position field's offset and covers exactly that field; location 1 does the same for the colour field. Each attribute lies inside one vertex, and the two do not overlap. |

## Left out

- Vulkan and GLFW calls are replaced by updates of the abstract state. These include buffer creation, memory mapping and copying, render-pass and framebuffer set-up and `vkDeviceWaitIdle`. Of `glfwWaitEvents` and `glfwPollEvents`, only the resize event they may deliver is modelled.
- Fences, semaphores and frames in flight are not modelled; they concern CPU/GPU concurrency.
- The swap chain's own choice of image count, extent, format and present mode is not modelled. The image count of a new chain is a parameter. The model treats the chain's extent (`getSwapChainExtent()`, over which frames are recorded) as equal to the window extent the chain was created with.
- The wait loop in `recreateSwapChain` ends only if the window eventually reports a non-zero extent. The model requires that of the polled extents; it is not a property of the program.
- The failures of `vkCreatePipelineLayout`, `vkAllocateCommandBuffers`, `vkBeginCommandBuffer` and `vkEndCommandBuffer` are not modelled (each throws in the source). The corresponding operations always succeed in the model.
- The exceptions thrown inside the device layer are not modelled either: constructing an `LgeSwapChain` (first_app.cpp:108, 110), constructing an `LgePipeline` with its shader-file reads (first_app.cpp:94-96), and the queue submit inside `submitCommandBuffers` (first_app.cpp:230). `RecreateSwapChain` and `CreatePipeline` always succeed, and `submitCommandBuffers` only returns a `VkResult`. Hence `Simulate` and `Run` know only the two exceptions `drawFrame` throws itself.
- `App.FirstApp.RecordCommandBuffer`: the commands recorded inside the render pass are not modelled. This covers viewport, scissor, clear values and `renderGameObjects`, which rotates objects with float arithmetic and pushes constants. A recording is a single trace event.
- `loadGameObjects` is not modelled (scene set-up with float colours and transforms). Neither is the destructor.
- The OBJ parser and the vertex hash are foreign code. The parser's output is an input. The hash map is a Dafny `map`, keyed on structural equality of vertices.
- `Model.Builder.LoadModel`: requires that the unchecked reads of positions, normals and texture coordinates are in range. In the source these reads are unchecked, so an out-of-range index there is undefined behaviour; the model requires in-range reads instead. The guarded colour read is modelled as written.
- `Model.Builder.LoadModel`: map values are `nat`, not `uint32_t`. The truncation of a vertex position past 2^32 distinct vertices is not modelled.
- `Model.CreateModelFromFile`: the console message giving the vertex count is not modelled.
- Floating-point rounding is not modelled: attributes are `real`, and the uv flip `1.0f - t` is exact.
- `Model.AttributeDescriptions`: `lge_model.hpp`, which declares `Vertex`, is not part of this model. The field offsets assume tightly packed `float` fields in the order the vertex hash combines them (src/lge_model.cpp:19).
- The push-constant layout and alignment, `simple_render_system.cpp` and `lge_pipeline.hpp` are not part of this model.
