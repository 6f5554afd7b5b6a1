/** The native side of the player (nativePlayer.cpp): the process-wide state that the
    transport calls update, the stream selection of nativePlay, the demux routing of
    readThread and the output-buffer fill of audioCallback. Library and platform results
    (av_read_frame, av_seek_frame, the open and decoder set-up calls) are parameters. */
module NativePlayer {
  import opened Media
  import opened PacketQueues

  // ---------------------------------------------------------------------------
  // Stream selection (the for loop of nativePlay)
  // ---------------------------------------------------------------------------

  /** The index of the last stream of type `t`, or `prior` when there is none: what the
      selection loop, which has no break, leaves in an index variable that held `prior`. */
  function LastOfType(streams: seq<MediaType>, t: MediaType, prior: int): (r: int)
    ensures (exists i :: 0 <= i < |streams| && streams[i] == t) ==>
              0 <= r < |streams| && streams[r] == t &&
              forall j :: r < j < |streams| ==> streams[j] != t
    ensures (forall i :: 0 <= i < |streams| ==> streams[i] != t) ==> r == prior
    decreases |streams|
  {
    if streams == [] then prior
    else if streams[|streams| - 1] == t then |streams| - 1
    else LastOfType(streams[..|streams| - 1], t, prior)
  }

  /** The loop over the container's streams: every video stream overwrites the video index,
      every audio stream the audio index, so each ends at the last stream of its type; an
      index with no stream of its type keeps the value it had before the loop. */
  method SelectStreams(streams: seq<MediaType>, video0: int, audio0: int) returns (video: int, audio: int)
    ensures video == LastOfType(streams, VideoType, video0)
    ensures audio == LastOfType(streams, AudioType, audio0)
  {
    video, audio := video0, audio0;
    for i := 0 to |streams|
      invariant video == LastOfType(streams[..i], VideoType, video0)
      invariant audio == LastOfType(streams[..i], AudioType, audio0)
    {
      assert streams[..i + 1][..i] == streams[..i];
      if streams[i] == VideoType {
        video := i;
      } else if streams[i] == AudioType {
        audio := i;
      }
    }
    assert streams[..|streams|] == streams;
  }

  /** With the indices still at their initial -1, nativePlay on an input whose streams
      it could read returns null for lack of a video stream exactly when there is none;
      the audio index then says whether an audio stream exists. */
  lemma FreshSelection(r: PlayReport)
    requires r.windowAcquired && r.inputOpened && r.streamInfoFound
    ensures PlayExitOf(r, LastOfType(r.streams, VideoType, -1)) == NoVideoStream
            <==> forall i :: 0 <= i < |r.streams| ==> r.streams[i] != VideoType
    ensures LastOfType(r.streams, AudioType, -1) == -1
            <==> forall i :: 0 <= i < |r.streams| ==> r.streams[i] != AudioType
  {
    if exists i :: 0 <= i < |r.streams| && r.streams[i] == VideoType {
      var v := LastOfType(r.streams, VideoType, -1);
      assert 0 <= v;
    }
  }

  // ---------------------------------------------------------------------------
  // Demux routing (readThread)
  // ---------------------------------------------------------------------------

  /** Where readThread sends one packet. */
  datatype Route = ToVideo | ToAudio | Dropped

  /** The video index wins when both indices name the packet's stream. */
  function RouteOf(pkt: Packet, video: int, audio: int): (d: Route)
    ensures d == ToVideo <==> pkt.streamIndex == video
    ensures d == ToAudio <==> pkt.streamIndex == audio && pkt.streamIndex != video
    ensures d == Dropped <==> pkt.streamIndex != video && pkt.streamIndex != audio
  {
    if pkt.streamIndex == video then ToVideo
    else if pkt.streamIndex == audio then ToAudio
    else Dropped
  }

  /** The packets of `pkts` that go to `dest`, in read order. */
  function Routed(pkts: seq<Packet>, video: int, audio: int, dest: Route): seq<Packet>
    decreases |pkts|
  {
    if pkts == [] then []
    else
      var last := pkts[|pkts| - 1];
      Routed(pkts[..|pkts| - 1], video, audio, dest)
      + (if RouteOf(last, video, audio) == dest then [last] else [])
  }

  /** A packet reaches a destination exactly when it was read and is routed there. */
  lemma {:induction false} RoutedMembers(pkts: seq<Packet>, video: int, audio: int, dest: Route, p: Packet)
    ensures p in Routed(pkts, video, audio, dest) <==> p in pkts && RouteOf(p, video, audio) == dest
    decreases |pkts|
  {
    if pkts != [] {
      var init := pkts[..|pkts| - 1];
      RoutedMembers(init, video, audio, dest, p);
      assert pkts == init + [pkts[|pkts| - 1]];
    }
  }

  /** The video queue receives exactly the packets of the video stream; the audio queue
      exactly those of the audio stream that are not also the video stream's; every other
      packet is dropped. */
  lemma {:induction false} ReadThreadRouting(pkts: seq<Packet>, video: int, audio: int, p: Packet)
    ensures p in Routed(pkts, video, audio, ToVideo) <==> p in pkts && p.streamIndex == video
    ensures p in Routed(pkts, video, audio, ToAudio) <==>
              p in pkts && p.streamIndex == audio && p.streamIndex != video
    ensures p in Routed(pkts, video, audio, Dropped) <==>
              p in pkts && p.streamIndex != video && p.streamIndex != audio
  {
    RoutedMembers(pkts, video, audio, ToVideo, p);
    RoutedMembers(pkts, video, audio, ToAudio, p);
    RoutedMembers(pkts, video, audio, Dropped, p);
  }

  /** Routing distributes over concatenation, so each destination keeps the read order. */
  lemma {:induction false} RoutedAppend(xs: seq<Packet>, ys: seq<Packet>, video: int, audio: int, dest: Route)
    ensures Routed(xs + ys, video, audio, dest) == Routed(xs, video, audio, dest) + Routed(ys, video, audio, dest)
    decreases |ys|
  {
    if ys == [] {
      assert xs + ys == xs;
    } else {
      var yInit := ys[..|ys| - 1];
      assert (xs + ys)[..|xs + ys| - 1] == xs + yInit;
      RoutedAppend(xs, yInit, video, audio, dest);
    }
  }

  /** Every packet read goes to exactly one destination. */
  lemma {:induction false} RoutedPartition(pkts: seq<Packet>, video: int, audio: int)
    ensures |Routed(pkts, video, audio, ToVideo)| + |Routed(pkts, video, audio, ToAudio)|
            + |Routed(pkts, video, audio, Dropped)| == |pkts|
    decreases |pkts|
  {
    if pkts != [] {
      RoutedPartition(pkts[..|pkts| - 1], video, audio);
    }
  }

  // ---------------------------------------------------------------------------
  // Audio output (audioCallback)
  // ---------------------------------------------------------------------------

  /** Bytes per output frame: two 16-bit samples (stereo, AV_SAMPLE_FMT_S16). */
  const BytesPerFrame: nat := 4

  function Min(a: int, b: int): int
  {
    if a <= b then a else b
  }

  function Zeros(n: nat): (z: seq<byte>)
    ensures |z| == n
    ensures forall i :: 0 <= i < n ==> z[i] == 0
  {
    seq(n, _ => 0)
  }

  /** The device buffer's first `bufferSize` bytes after the callback copies the first
      `copied` bytes of `frame`: those bytes, then silence. */
  function Filled(frame: seq<byte>, copied: nat, bufferSize: nat): (out: seq<byte>)
    requires copied <= bufferSize && copied <= |frame|
    ensures |out| == bufferSize
    ensures forall i :: 0 <= i < copied ==> out[i] == frame[i]
    ensures forall i :: copied <= i < bufferSize ==> out[i] == 0
  {
    frame[..copied] + Zeros(bufferSize - copied)
  }

  /** memset(dst + off, 0, n). */
  method MemSet(dst: array<byte>, off: nat, n: nat)
    requires off + n <= dst.Length
    modifies dst
    ensures dst[off..off + n] == Zeros(n)
    ensures dst[..off] == old(dst[..off]) && dst[off + n..] == old(dst[off + n..])
  {
    for i := off to off + n
      invariant forall k :: off <= k < i ==> dst[k] == 0
      invariant forall k :: 0 <= k < off || i <= k < dst.Length ==> dst[k] == old(dst[k])
    {
      dst[i] := 0;
    }
  }

  /** memcpy(dst, src, n). */
  method MemCopy(dst: array<byte>, src: seq<byte>, n: nat)
    requires n <= dst.Length && n <= |src|
    modifies dst
    ensures dst[..n] == src[..n]
    ensures dst[n..] == old(dst[n..])
  {
    for i := 0 to n
      invariant forall k :: 0 <= k < i ==> dst[k] == src[k]
      invariant forall k :: i <= k < dst.Length ==> dst[k] == old(dst[k])
    {
      dst[i] := src[i];
    }
  }

  /** The pull callback of the audio device, for `numFrames` frames: with nothing queued it
      writes silence and pops nothing; otherwise it pops exactly one buffer and writes its
      first min(availableSize, bufferSize) bytes, then silence up to bufferSize. The bytes
      past bufferSize are not touched. `availableSize` is what av_samples_get_buffer_size
      reports for the frame count. */
  method AudioCallback(q: SafeQueue, audioData: array<byte>, numFrames: nat, availableSize: nat)
    returns (ret: int)
    requires numFrames * BytesPerFrame <= audioData.Length
    requires q.queue != [] ==> Min(availableSize, numFrames * BytesPerFrame) <= |q.queue[0]|
    modifies q, audioData
    ensures ret == 0
    ensures audioData[numFrames * BytesPerFrame..] == old(audioData[numFrames * BytesPerFrame..])
    ensures old(q.queue) == [] ==>
              q.queue == [] && audioData[..numFrames * BytesPerFrame] == Zeros(numFrames * BytesPerFrame)
    ensures old(q.queue) != [] ==>
              q.queue == old(q.queue)[1..] &&
              audioData[..numFrames * BytesPerFrame]
              == Filled(old(q.queue)[0], Min(availableSize, numFrames * BytesPerFrame), numFrames * BytesPerFrame)
  {
    var bufferSize := numFrames * BytesPerFrame;
    ghost var tail := audioData[bufferSize..];
    var isEmpty := q.Empty();
    if isEmpty {
      MemSet(audioData, 0, bufferSize);
      return 0;
    }
    var audioFrame := q.Pop();
    var frame := audioFrame.buffer;
    if availableSize <= bufferSize {
      MemCopy(audioData, frame, availableSize);
      assert audioData[..availableSize] == frame[..availableSize];
      assert audioData[bufferSize..] == tail;
      if availableSize < bufferSize {
        MemSet(audioData, availableSize, bufferSize - availableSize);
      }
      assert audioData[..availableSize] == frame[..availableSize];
      assert audioData[availableSize..bufferSize] == Zeros(bufferSize - availableSize);
      assert audioData[bufferSize..] == tail;
      assert audioData[..bufferSize] == audioData[..availableSize] + audioData[availableSize..bufferSize];
      assert audioData[..bufferSize] == Filled(frame, availableSize, bufferSize);
    } else {
      MemCopy(audioData, frame, bufferSize);
      assert Zeros(0) == [];
      assert audioData[..bufferSize] == frame[..bufferSize] + Zeros(0);
      assert audioData[..bufferSize] == Filled(frame, bufferSize, bufferSize);
    }
    ret := 0;
  }

  // ---------------------------------------------------------------------------
  // The process-wide player state and the transport calls
  // ---------------------------------------------------------------------------

  /** The stream indices nativePlay reports on success (its MediaInfo stands in for them). */
  datatype Selection = Selection(videoIndex: int, audioIndex: int)

  /** What the platform and the library report along nativePlay: the native window, opening
      the input, reading stream information, the streams' codec types, and finding,
      allocating, configuring and opening the video decoder. */
  datatype PlayReport = PlayReport(
    windowAcquired: bool,
    inputOpened: bool,
    streamInfoFound: bool,
    streams: seq<MediaType>,
    decoderFound: bool,
    contextAllocated: bool,
    parametersCopied: bool,
    decoderOpened: bool)

  /** The return statement nativePlay reaches. */
  datatype PlayExit =
    | NoWindow | InputNotOpened | NoStreamInfo | NoVideoStream | NoDecoder
    | NoCodecContext | ParametersNotCopied | DecoderNotOpened | Started

  /** The exit nativePlay takes, given the video index the selection loop left. */
  function PlayExitOf(r: PlayReport, video: int): (e: PlayExit)
    ensures e == Started <==>
              r.windowAcquired && r.inputOpened && r.streamInfoFound && video != -1 &&
              r.decoderFound && r.contextAllocated && r.parametersCopied && r.decoderOpened
    ensures e == NoVideoStream <==>
              r.windowAcquired && r.inputOpened && r.streamInfoFound && video == -1
    ensures e in {NoWindow, InputNotOpened, NoStreamInfo} <==>
              !(r.windowAcquired && r.inputOpened && r.streamInfoFound)
  {
    if !r.windowAcquired then NoWindow
    else if !r.inputOpened then InputNotOpened
    else if !r.streamInfoFound then NoStreamInfo
    else if video == -1 then NoVideoStream
    else if !r.decoderFound then NoDecoder
    else if !r.contextAllocated then NoCodecContext
    else if !r.parametersCopied then ParametersNotCopied
    else if !r.decoderOpened then DecoderNotOpened
    else Started
  }

  /** The globals of nativePlayer.cpp: the transport flags, whether the format handle
      (fmt_ctx) and the video decoder context (codec_ctx_video) are non-null, the two
      stream indices, and the three queues. */
  class NativeState {
    var paused: bool
    var stopped: bool
    var speed: real
    var hasFmt: bool
    var hasVideoCodec: bool
    var videoIndex: int
    var audioIndex: int
    const videoQueue: PacketQueue
    const audioQueue: PacketQueue
    const pcmQueue: SafeQueue

    /** The two packet queues are distinct objects and the speed is positive. */
    ghost predicate Valid()
      reads this
    {
      videoQueue != audioQueue && speed > 0.0
    }

    /** The state at process start: the flags' initialisers, null handles, indices -1,
        empty open queues. */
    constructor ()
      ensures Valid()
      ensures !paused && !stopped && speed == 1.0
      ensures !hasFmt && !hasVideoCodec
      ensures videoIndex == -1 && audioIndex == -1
      ensures fresh(videoQueue) && fresh(audioQueue) && fresh(pcmQueue)
      ensures videoQueue.queue == [] && !videoQueue.finished
      ensures audioQueue.queue == [] && !audioQueue.finished
      ensures pcmQueue.queue == []
    {
      paused, stopped, speed := false, false, 1.0;
      hasFmt, hasVideoCodec := false, false;
      videoIndex, audioIndex := -1, -1;
      videoQueue := new PacketQueue();
      audioQueue := new PacketQueue();
      pcmQueue := new SafeQueue();
    }

    /** readThread: if the packet cannot be allocated, marks both queues finished and
        stops; otherwise routes every packet the demuxer yields (`pkts`, those read before
        av_read_frame first fails) by stream index, then marks both queues finished. */
    method ReadThread(packetAllocated: bool, pkts: seq<Packet>)
      requires Valid()
      modifies videoQueue, audioQueue
      ensures videoQueue.queue == old(videoQueue.queue)
              + (if packetAllocated then Routed(pkts, videoIndex, audioIndex, ToVideo) else [])
      ensures audioQueue.queue == old(audioQueue.queue)
              + (if packetAllocated then Routed(pkts, videoIndex, audioIndex, ToAudio) else [])
      ensures videoQueue.finished && audioQueue.finished
    {
      if !packetAllocated {
        videoQueue.SetFinished(true);
        audioQueue.SetFinished(true);
        return;
      }
      var i := 0;
      while i < |pkts|
        invariant 0 <= i <= |pkts|
        invariant videoQueue.queue == old(videoQueue.queue) + Routed(pkts[..i], videoIndex, audioIndex, ToVideo)
        invariant audioQueue.queue == old(audioQueue.queue) + Routed(pkts[..i], videoIndex, audioIndex, ToAudio)
      {
        var pkt := pkts[i];
        assert pkts[..i + 1][..i] == pkts[..i];
        if pkt.streamIndex == videoIndex {
          videoQueue.Push(pkt);
        } else if pkt.streamIndex == audioIndex {
          audioQueue.Push(pkt);
        }
        i := i + 1;
      }
      assert pkts[..|pkts|] == pkts;
      videoQueue.SetFinished(true);
      audioQueue.SetFinished(true);
    }

    /** nativePlay, up to starting its threads: the guard chain of the open and decoder
        set-up calls, the stream selection (which runs before the video check and so
        persists on later failures), the handles each failure path releases, and the
        reset of the video queue's flag on success. The transport flags are not reset. */
    method Play(r: PlayReport) returns (info: Option<Selection>)
      requires Valid()
      modifies this, videoQueue
      ensures Valid()
      ensures paused == old(paused) && stopped == old(stopped) && speed == old(speed)
      ensures videoQueue.queue == old(videoQueue.queue)
      ensures r.windowAcquired && r.inputOpened && r.streamInfoFound ==>
                videoIndex == LastOfType(r.streams, VideoType, old(videoIndex)) &&
                audioIndex == LastOfType(r.streams, AudioType, old(audioIndex))
      ensures !(r.windowAcquired && r.inputOpened && r.streamInfoFound) ==>
                videoIndex == old(videoIndex) && audioIndex == old(audioIndex)
      ensures var exit := PlayExitOf(r, videoIndex);
              && (info == if exit == Started then Some(Selection(videoIndex, audioIndex)) else None)
              && (hasFmt <==> exit == Started || (exit == NoWindow && old(hasFmt)))
              && (hasVideoCodec == if exit == Started then true
                                   else if exit in {NoCodecContext, ParametersNotCopied, DecoderNotOpened} then false
                                   else old(hasVideoCodec))
              && (videoQueue.finished == if exit == Started then false else old(videoQueue.finished))
    {
      if !r.windowAcquired {
        return None;
      }
      if !r.inputOpened {
        hasFmt := false;
        return None;
      }
      hasFmt := true;
      if !r.streamInfoFound {
        hasFmt := false;
        return None;
      }
      videoIndex, audioIndex := SelectStreams(r.streams, videoIndex, audioIndex);
      if videoIndex == -1 {
        hasFmt := false;
        return None;
      }
      if !r.decoderFound {
        hasFmt := false;
        return None;
      }
      hasVideoCodec := r.contextAllocated;
      if !r.contextAllocated {
        hasFmt := false;
        return None;
      }
      if !r.parametersCopied || !r.decoderOpened {
        hasVideoCodec := false;
        hasFmt := false;
        return None;
      }
      videoQueue.SetFinished(false);
      info := Some(Selection(videoIndex, audioIndex));
    }

    /** nativePause: sets the pause flag to `p` and nothing else. */
    method Pause(p: bool)
      modifies this`paused
      ensures paused == p
    {
      paused := p;
    }

    /** nativeSeek, with `seekResult` standing for what av_seek_frame returns: -1 without a
        session or for a negative position, the library's error code when the seek fails,
        and 0 otherwise, flushing the video decoder only then and only if there is one.
        Neither the transport state nor the queues change. */
    method Seek(position: real, seekResult: int) returns (ret: int, flushed: bool)
      ensures !hasFmt || position < 0.0 ==> ret == -1 && !flushed
      ensures hasFmt && position >= 0.0 && seekResult < 0 ==> ret == seekResult && !flushed
      ensures hasFmt && position >= 0.0 && seekResult >= 0 ==> ret == 0 && flushed == hasVideoCodec
      ensures flushed ==> ret == 0
    {
      if !hasFmt || position < 0.0 {
        return -1, false;
      }
      if seekResult < 0 {
        return seekResult, false;
      }
      flushed := hasVideoCodec;
      ret := 0;
    }

    /** nativeStop: sets the stop flag and leaves both handles null, releasing each only
        if it was non-null; returns 0. */
    method Stop() returns (ret: int, codecReleased: bool, inputClosed: bool)
      modifies this`stopped, this`hasVideoCodec, this`hasFmt
      ensures ret == 0
      ensures stopped && !hasVideoCodec && !hasFmt
      ensures codecReleased == old(hasVideoCodec) && inputClosed == old(hasFmt)
    {
      stopped := true;
      codecReleased := hasVideoCodec;
      if hasVideoCodec {
        hasVideoCodec := false;
      }
      inputClosed := hasFmt;
      if hasFmt {
        hasFmt := false;
      }
      ret := 0;
    }

    /** Calling nativeStop twice reaches the state one call reaches, and the second call
        releases nothing. */
    method StopTwice() returns (codecReleasedAgain: bool, inputClosedAgain: bool)
      modifies this`stopped, this`hasVideoCodec, this`hasFmt
      ensures stopped && !hasVideoCodec && !hasFmt
      ensures !codecReleasedAgain && !inputClosedAgain
    {
      var _, _, _ := Stop();
      var ret;
      ret, codecReleasedAgain, inputClosedAgain := Stop();
    }

    /** nativeSetSpeed: rejects a speed <= 0 with -1 and keeps the old one; otherwise
        stores it and returns 0. */
    method SetSpeed(v: real) returns (ret: int)
      requires Valid()
      modifies this`speed
      ensures Valid()
      ensures v <= 0.0 ==> ret == -1 && speed == old(speed)
      ensures v > 0.0 ==> ret == 0 && speed == v
    {
      if v <= 0.0 {
        return -1;
      }
      speed := v;
      ret := 0;
    }
  }
}
