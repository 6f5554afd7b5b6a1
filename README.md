# androidplayer: the packet queues, the native transport state and the Java Player, in Dafny

This project models three sequential pieces of an Android media player built on FFmpeg.

- **The hand-off queues.** `PacketQueue` is the FIFO of compressed packets between the demux thread and the decode threads. It has a `finished` flag. `SafeQueue` is the FIFO of PCM byte buffers meant to feed the audio output callback. As the code stands, `SafeQueue` and the callback are unreachable: the callback is never registered (nativePlayer.cpp:358-361 are commented out) and `decodeAudio`, the only producer, is never started (nativePlayer.cpp:365).
- **The native player** (`nativePlayer.cpp`). Its process-wide globals become one object, `NativeState`: the pause and stop flags, the speed, whether the format handle and the video decoder context are non-null, the two stream indices, and the three queues. The model covers:
  - the transport calls `nativePause`, `nativeSetSpeed`, `nativeSeek` and `nativeStop`;
  - the set-up chain of `nativePlay`, including its stream-selection loop;
  - the routing loop of `readThread`;
  - the buffer fill of `audioCallback`.
- **The Java `Player`.** Its `PlayerState` machine runs on top of the native calls. The model also covers the channel mapping of `createTrack`.

Files:

- `media.dfy`: bytes, `Option`, stream media types and packets.
- `packet_queue.dfy`: the two queue classes. It also holds a value-level description of a `PacketQueue` (`QueueState` with `Pushed` and `PopStep`), and the lemmas about any sequence of calls on it.
- `native_player.dfy`: the `NativeState` class, stream selection, routing, and the audio callback.
- `player.dfy`: the Java `Player` class, the `Next`/`Run` transition functions and their lemmas, and the channel mapping.

Every queue call is modelled by its sequential effect. A call that would suspend its thread gets an explicit outcome instead: `WouldBlock` for `PacketQueue.Pop`, `Blocks` for `SafeQueue.Pop`. That outcome changes nothing.

Library and platform results are parameters:

- `av_read_frame`: `ReadThread` receives the finite sequence of packets read before the first failure.
- `av_seek_frame`: `Seek` receives its status code as `seekResult`.
- `nativePlay`'s calls (window, open, stream info, decoder set-up): `Play` receives their outcomes as a `PlayReport`.
- `av_samples_get_buffer_size`: `AudioCallback` receives its value as `availableSize`.

Some consequences of the code that the model keeps:

- The stream indices are static globals that `nativePlay` never resets. `SelectStreams` therefore starts from the previous values. A second `nativePlay` on a file with no video stream keeps the old video index and gets past the "no video stream" check. `FreshSelection` states what happens from the initial value -1: the "no video stream" exit is taken exactly when the file has no video stream.
- `nativePlay` never resets `isStopped` or `isPaused`. `Player.Start` therefore sets `Playing` while a native pause or stop flag may still be set. The invariant that does hold is `PauseAgrees`, part of `Player.Valid`: the Java state reads Paused only while the native pause flag is set.
- `seek` empties no queue: the packets already queued stay queued. `NativeState.Seek` changes no state at all. Its only effects are the returned status and whether the decoder would be flushed.
- `nativePlay` resets only the video queue's `finished` flag on success.
- The audio output queue's `pop` waits on an empty queue; it does not return an empty buffer.

## Model

| member | source | states |
|---|---|---|
| PacketQueues.PacketQueue.constructor | app/src/main/cpp/PacketQueue.cpp:5 | a new queue is empty and not finished |
| PacketQueues.PacketQueue.Push | app/src/main/cpp/PacketQueue.cpp:15-22 | exactly one packet is appended at the tail; earlier packets and the flag are unchanged |
| PacketQueues.PacketQueue.Pop | app/src/main/cpp/PacketQueue.cpp:24-39 | a non-empty queue hands out its head and keeps the tail in order, even when finished; an empty finished queue reports no data; an empty open queue would block; nothing changes in the last two cases; the flag never changes |
| PacketQueues.PacketQueue.SetFinished | app/src/main/cpp/PacketQueue.cpp:41-45 | the flag becomes exactly the argument (false included) and the packets stay |
| PacketQueues.PacketQueue.IsFinished | app/src/main/cpp/PacketQueue.cpp:47-50 | returns the flag and changes nothing |
| PacketQueues.NoLossNoDuplication | app/src/main/cpp/PacketQueue.cpp:15-45 | for any interleaving of push, pop and setFinished, the packets delivered followed by those still queued equal the initial packets followed by all pushed ones: none are lost, duplicated or reordered |
| PacketQueues.DeliveredAppend | app/src/main/cpp/PacketQueue.cpp:15-45 | running two call sequences one after the other delivers and reports what each delivers and reports, in order |
| PacketQueues.PushesAppend | app/src/main/cpp/PacketQueue.cpp:15-22 | a run of pushes delivers nothing and appends its packets in order, keeping the flag |
| PacketQueues.PopsDrain | app/src/main/cpp/PacketQueue.cpp:24-39 | popping once per queued packet hands out all of them head first and empties the queue, whether or not it is finished |
| PacketQueues.Fifo | app/src/main/cpp/PacketQueue.cpp:15-39 | on an empty queue, pushing p1..pn and then popping n times delivers p1..pn in order and leaves the queue empty |
| PacketQueues.DrainThenEnd | app/src/main/cpp/PacketQueue.cpp:27-38 | after the queue is drained, the next pop reports no data if finished and would block otherwise |
| PacketQueues.DeliveredIsPopped | app/src/main/cpp/PacketQueue.cpp:24-39 | the packets counted as delivered are exactly those the pop calls return, in call order, so the no-loss result is about what `pop` hands out |
| PacketQueues.Pushed | app/src/main/cpp/PacketQueue.cpp:15-22 | one more packet, the pushed one, at the tail; the earlier packets and the flag stay |
| PacketQueues.PopStep | app/src/main/cpp/PacketQueue.cpp:24-39 | a packet is returned exactly when the queue is non-empty, and it is the head, the rest staying in order; no data exactly when empty and finished; a wait exactly when empty and open; nothing changes without a packet; the flag never changes |
| PacketQueues.Apply | app/src/main/cpp/PacketQueue.cpp:15-45 | one call hands out at most the head and takes in at most the pushed packet, so what it hands out plus what stays equals what was there plus what it took in; only setFinished changes the flag, to its argument |
| PacketQueues.SafeQueue.constructor | app/src/main/cpp/include/PacketQueue.h:34-45 | a new PCM queue is empty |
| PacketQueues.SafeQueue.Push | app/src/main/cpp/PacketQueue.cpp:54-60 | appends a copy of the first size bytes of the caller's buffer as a value, so later writes to that buffer cannot reach it; the size is not stored |
| PacketQueues.SafeQueue.Pop | app/src/main/cpp/PacketQueue.cpp:62-68 | a non-empty queue hands out and removes its head buffer; an empty queue would block and stays empty |
| PacketQueues.SafeQueue.Empty | app/src/main/cpp/PacketQueue.cpp:70-73 | true exactly when no buffer is queued; changes nothing |
| NativePlayer.LastOfType | app/src/main/cpp/nativePlayer.cpp:268-284 | the result is the last stream of the given type when one exists (no later stream has that type); otherwise it is the value held before the loop |
| NativePlayer.SelectStreams | app/src/main/cpp/nativePlayer.cpp:268-284 | the loop, which has no break, leaves the video index at the last video stream and the audio index at the last audio stream; an index with no stream of its type keeps its prior value |
| NativePlayer.FreshSelection | app/src/main/cpp/nativePlayer.cpp:286-292 | starting from -1, nativePlay returns null for lack of a video stream exactly when the input has no video stream; the audio index stays -1 exactly when there is no audio stream |
| NativePlayer.RouteOf | app/src/main/cpp/nativePlayer.cpp:65-69 | a packet goes to video exactly when its stream index is the video index; to audio exactly when it is the audio index and not the video index; it is dropped exactly when it is neither |
| NativePlayer.RoutedMembers | app/src/main/cpp/nativePlayer.cpp:64-71 | a packet reaches a destination if and only if it was read and its stream index routes it there |
| NativePlayer.ReadThreadRouting | app/src/main/cpp/nativePlayer.cpp:65-69 | the video queue gets exactly the video stream's packets; the audio queue gets exactly the audio stream's packets that are not the video stream's; all other packets are dropped |
| NativePlayer.RoutedAppend | app/src/main/cpp/nativePlayer.cpp:64-71 | routing distributes over concatenation, so each queue keeps the read order |
| NativePlayer.RoutedPartition | app/src/main/cpp/nativePlayer.cpp:64-71 | every packet read goes to exactly one destination (counts add up) |
| NativePlayer.NativeState.ReadThread | app/src/main/cpp/nativePlayer.cpp:56-75 | each queue gains exactly its routed packets, in read order, after what it held; both queues are finished at the end; on the packet-allocation failure path nothing is pushed and both are still marked finished |
| NativePlayer.Zeros | app/src/main/cpp/nativePlayer.cpp:173 | silence: n zero bytes |
| NativePlayer.Filled | app/src/main/cpp/nativePlayer.cpp:181-189 | the device buffer holds the copied leading bytes of the popped frame, then zeros up to bufferSize |
| NativePlayer.MemSet | app/src/main/cpp/nativePlayer.cpp:185 | zeros exactly the given range and nothing else |
| NativePlayer.MemCopy | app/src/main/cpp/nativePlayer.cpp:182 | copies exactly the first n bytes and nothing else |
| NativePlayer.AudioCallback | app/src/main/cpp/nativePlayer.cpp:166-192 | with bufferSize = numFrames*4: an empty queue gives bufferSize zero bytes and pops nothing; otherwise exactly one buffer is popped, and its first min(availableSize, bufferSize) bytes are written, then zeros up to bufferSize; bytes past bufferSize are untouched; returns 0 |
| NativePlayer.NativeState.constructor | app/src/main/cpp/nativePlayer.cpp:37-52 | process start: not paused, not stopped, speed 1, both handles null, both indices -1, empty open queues; `Valid` holds: the two packet queues are distinct and the speed is positive |
| NativePlayer.PlayExitOf | app/src/main/cpp/nativePlayer.cpp:250-344 | nativePlay succeeds exactly when every step succeeds and the video index is not -1; it takes the "no video stream" exit exactly when the input was opened and read and the index is -1; it fails before the selection exactly when the window, the open or the stream-info step fails |
| NativePlayer.NativeState.Play | app/src/main/cpp/nativePlayer.cpp:246-369 | returns a result only when every step succeeds; the indices are re-selected from their prior values once the stream information is read, even on later failure; failure paths after opening close the input; the video context is null after an allocation, copy or open failure and unchanged before it; success resets only the video queue's flag; the transport flags never change |
| NativePlayer.NativeState.Pause | app/src/main/cpp/nativePlayer.cpp:375-377 | sets the pause flag to p and changes nothing else |
| NativePlayer.NativeState.Seek | app/src/main/cpp/nativePlayer.cpp:382-397 | returns -1 without a flush when there is no format handle or the position is negative; returns the library's error code without a flush when the seek fails; otherwise returns 0 and flushes exactly when a video decoder exists; no state changes |
| NativePlayer.NativeState.Stop | app/src/main/cpp/nativePlayer.cpp:402-414 | sets the stop flag, leaves both handles null, releases each handle only if it was non-null, and returns 0 |
| NativePlayer.NativeState.StopTwice | app/src/main/cpp/nativePlayer.cpp:402-414 | a second stop reaches the same state and releases nothing, because of the null guards |
| NativePlayer.NativeState.SetSpeed | app/src/main/cpp/nativePlayer.cpp:419-425 | a speed <= 0 returns -1 and keeps the old speed; any other speed is stored and returns 0; so the speed stays positive, which is part of `Valid` |
| JavaPlayer.Next | app/src/main/java/com/example/androidplayer/Player.java:52-80 | start, pause and stop leave Playing, Paused or End; seek and setSpeed keep the state; no call moves into Seeking |
| JavaPlayer.SeekingNeverAssigned | app/src/main/java/com/example/androidplayer/Player.java:25-33 | Seeking is declared but no call sequence starting elsewhere ever reaches it |
| JavaPlayer.RunIsLastTransition | app/src/main/java/com/example/androidplayer/Player.java:52-80 | after any call sequence, mState is decided by the last start, pause or stop alone; seek and setSpeed never change it |
| JavaPlayer.ChannelConfigFor | app/src/main/java/com/example/androidplayer/Player.java:93-100 | 2 channels map to stereo; 1 channel and every other count map to mono |
| JavaPlayer.Player.constructor | app/src/main/java/com/example/androidplayer/Player.java:33 | the initial state is None; `Valid` holds: the native state is valid, mState is not Seeking, and mState reads Paused only while the native pause flag is set |
| JavaPlayer.Player.Start | app/src/main/java/com/example/androidplayer/Player.java:52-56 | the state becomes Playing unconditionally, even when nativePlay returned null; `mediaInfo` holds exactly what nativePlay returned, the selected indices on success and null otherwise; the native indices, handles and video-queue flag change as nativePlay changes them; the native transport flags and speed are untouched; `Valid` is kept |
| JavaPlayer.Player.Pause | app/src/main/java/com/example/androidplayer/Player.java:57-64 | the native pause flag becomes p; the state becomes Paused for true and Playing for false, whatever it was |
| JavaPlayer.Player.Stop | app/src/main/java/com/example/androidplayer/Player.java:65-68 | the state becomes End after nativeStop |
| JavaPlayer.Player.Seek | app/src/main/java/com/example/androidplayer/Player.java:69-71 | mState does not change, whatever nativeSeek returns |
| JavaPlayer.Player.SetSpeed | app/src/main/java/com/example/androidplayer/Player.java:78-80 | mState does not change; the native speed changes only for a positive value |
| JavaPlayer.Player.GetState | app/src/main/java/com/example/androidplayer/Player.java:75-77 | returns mState without side effects, and it is never Seeking |

## Left out

- Threads, locks, condition variables and blocking. This covers the `std::thread(...).detach()` calls, the waits in both `pop`s, and the busy-wait pause loop in `decodeVideo`. Each queue call is modelled by its sequential effect, and a call that would wait has an explicit would-block outcome. The model does not capture the wake-one and wake-all notifications.
- FFmpeg and Android calls are not modelled: reading, seeking, decoding, scaling, resampling, packet references and frees, `ANativeWindow`, `AudioTrack`, and JNI. Packets are opaque values, and library results are parameters. `AAudioRender.h` is not part of this model.
- The `PacketQueue` destructor (PacketQueue.cpp:7-13) is left out. It only frees packets.
- The bodies of `decodeVideo` and `decodeAudio` are left out. Both are mostly codec and resampler calls, and `decodeAudio` is never started. The model therefore does not capture two behaviours of `decodeVideo`: its stop check leaves only the inner receive loop, and its teardown races with `nativeStop` on the same handles.
- Floating point is left out:
  - the frame-delay formula, with its extra factor of 10;
  - `duration`, `nativeGetPosition`, `nativeGetDuration` and `getProgress`;
  - the seek target `position * AV_TIME_BASE`;
  - the aspect ratio in `onSizeChange`.
- NativePlayer.NativeState.SetSpeed: the speed is a Dafny `real`, so a NaN argument, which passes the `speed <= 0` test in the source, is not modelled.
- NativePlayer.NativeState.Seek: the position is a Dafny `real`, so a NaN position is not modelled. In the source it passes the `position < 0` test at nativePlayer.cpp:383 and reaches the `int64_t` cast at line 385.
- NativePlayer.NativeState.Play: the audio-decoder set-up inside the selection loop (nativePlayer.cpp:275-282) is not modelled. The returned `MediaInfo`, including the audio parameters read through `audio_stream_index` at nativePlayer.cpp:295, is reduced to the two stream indices. The audio index is a static that is never reset. While no earlier file had an audio stream, a file with no audio stream leaves it at -1. On later calls, a file with no audio stream keeps the previous file's audio index, and that index may be at or past the new stream count. When the index is -1, or at or past the new stream count, line 295 reads outside the stream table, which is undefined behaviour. When it is inside the table, line 295 reads the parameters of a stream that is not audio, and readThread routes that stream's packets to the audio queue unless it is the video stream. The model captures neither read. It returns the index it holds, stale or -1, in its `Selection`.
- NativePlayer.NativeState.Play: a video index left over from an earlier call may be at or beyond the new file's stream count. The source then reads `fmt_ctx->streams[video_stream_index]` past the stream table at nativePlayer.cpp:294, which is undefined behaviour. The model does not capture that read: it follows the reported decoder steps as if the read had worked, and can return a selection whose video index names no stream of the new file.
- NativePlayer.NativeState.Play: when opening the input fails, the model sets the format handle to null, following FFmpeg's documented behaviour on failure. The model does not carry the native window handle.
- PacketQueues.SafeQueue.Push: the source copies `size` bytes from the caller's buffer without checking its length, and its only caller (nativePlayer.cpp:224-230, in the never-started `decodeAudio`) does not bound `size` by the 88200-byte buffer; a negative error code would wrap to a huge `size_t`. Reading past the buffer is undefined, so the model requires the buffer to hold `size` bytes.
- NativePlayer.AudioCallback: `availableSize` is taken as a non-negative parameter. `av_samples_get_buffer_size` returns a negative error code for zero frames, and the source then passes it to `memcpy` at nativePlayer.cpp:181-182, where it becomes a huge length. The model does not capture this; with zero frames it writes nothing and still pops one buffer.
- NativePlayer.AudioCallback: the device's frame count is a `nat`. The source copies min(availableSize, bufferSize) bytes from the popped buffer, whose length `SafeQueue` does not record. Reading past the end is undefined, so the model requires the head buffer to be at least as long as the bytes copied.
- `MainActivity.java`, `MediaInfo.java`, `OpenGLRenderer.cpp`, `OpenGLRenderer.h` and the offline `ffmpegDecoder.cpp` tool are not part of this model.
- `createTrack` beyond its channel mapping is not modelled: the buffer size query, the AudioTrack builders and `play`. `playTrack`, `setDataSource`, `setSurface` and `setSurfaceView` are not modelled either, being plain platform calls or field stores.
