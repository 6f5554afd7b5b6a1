/** The Java-side Player (Player.java): the PlayerState machine driven by start, pause,
    stop, seek and setSpeed on top of the native calls, and the channel mapping of
    createTrack. */
module JavaPlayer {
  import Media
  import NativePlayer

  datatype PlayerState = None | Playing | Paused | End | Seeking

  /** A call on the Player that can reach mState. */
  datatype Command = StartCall | PauseCall(p: bool) | StopCall | SeekCall | SetSpeedCall

  /** The state a call leaves in mState: start, pause and stop set it whatever it was,
      seek and setSpeed keep it, and no call sets Seeking. */
  function Next(s: PlayerState, c: Command): (t: PlayerState)
    ensures IsTransition(c) ==> t in {Playing, Paused, End}
    ensures !IsTransition(c) ==> t == s
    ensures t == Seeking ==> s == Seeking
  {
    match c
    case StartCall => Playing
    case PauseCall(p) => if p then Paused else Playing
    case StopCall => End
    case SeekCall => s
    case SetSpeedCall => s
  }

  /** The state after a sequence of calls. */
  function Run(s: PlayerState, cs: seq<Command>): PlayerState
    decreases |cs|
  {
    if cs == [] then s else Run(Next(s, cs[0]), cs[1..])
  }

  predicate IsTransition(c: Command)
  {
    c.StartCall? || c.PauseCall? || c.StopCall?
  }

  /** The last start, pause or stop among `cs`, if any. */
  function LastTransition(cs: seq<Command>): Media.Option<Command>
    decreases |cs|
  {
    if cs == [] then Media.None
    else
      match LastTransition(cs[1..])
      case Some(c) => Media.Some(c)
      case None => if IsTransition(cs[0]) then Media.Some(cs[0]) else Media.None
  }

  /** No call assigns Seeking: a call leaves Seeking only where it already was. */
  lemma {:induction false} SeekingNeverAssigned(s: PlayerState, cs: seq<Command>)
    requires s != Seeking
    ensures Run(s, cs) != Seeking
    decreases |cs|
  {
    if cs != [] {
      assert Next(s, cs[0]) != Seeking;
      SeekingNeverAssigned(Next(s, cs[0]), cs[1..]);
    }
  }

  /** mState is decided by the last start, pause or stop alone, whatever the state before
      it; seek and setSpeed never change it. */
  lemma {:induction false} RunIsLastTransition(s: PlayerState, cs: seq<Command>)
    ensures LastTransition(cs).Some? ==> IsTransition(LastTransition(cs).value)
    ensures Run(s, cs) == match LastTransition(cs)
                          case None => s
                          case Some(c) => Next(s, c)
    decreases |cs|
  {
    if cs != [] {
      RunIsLastTransition(Next(s, cs[0]), cs[1..]);
    }
  }

  /** The channel configuration of the AudioTrack createTrack builds. */
  datatype ChannelConfig = ChannelOutMono | ChannelOutStereo

  /** createTrack's mapping: two channels give stereo; one channel, and every other count,
      give mono. */
  function ChannelConfigFor(channelCount: int): (c: ChannelConfig)
    ensures c == ChannelOutStereo <==> channelCount == 2
    ensures c == ChannelOutMono <==> channelCount != 2
  {
    if channelCount == 1 then ChannelOutMono
    else if channelCount == 2 then ChannelOutStereo
    else ChannelOutMono
  }

  /** A Player over the process-wide native state. */
  class Player {
    var mState: PlayerState
    var mediaInfo: Media.Option<NativePlayer.Selection>
    const native: NativePlayer.NativeState

    /** The native state is valid, mState is never Seeking, and the Java state agrees
        with the native pause flag. */
    ghost predicate Valid()
      reads this, native
    {
      native.Valid() && mState != Seeking && PauseAgrees()
    }

    /** The Java state says Paused only while the native pause flag is set. */
    predicate PauseAgrees()
      reads this, native
    {
      mState == Paused ==> native.paused
    }

    constructor (native: NativePlayer.NativeState)
      requires native.Valid()
      ensures Valid()
      ensures mState == None && mediaInfo == Media.None && this.native == native
    {
      mState := None;
      mediaInfo := Media.None;
      this.native := native;
    }

    /** start: calls nativePlay, keeps what it returns (null included), and sets Playing
        whatever nativePlay did. The native transport flags are left as they were. */
    method Start(r: NativePlayer.PlayReport)
      requires Valid()
      modifies this, native, native.videoQueue
      ensures Valid()
      ensures mState == Next(old(mState), StartCall) && mState == Playing
      ensures native.paused == old(native.paused) && native.stopped == old(native.stopped)
      ensures native.speed == old(native.speed)
      ensures r.windowAcquired && r.inputOpened && r.streamInfoFound ==>
                native.videoIndex == NativePlayer.LastOfType(r.streams, Media.VideoType, old(native.videoIndex)) &&
                native.audioIndex == NativePlayer.LastOfType(r.streams, Media.AudioType, old(native.audioIndex))
      ensures !(r.windowAcquired && r.inputOpened && r.streamInfoFound) ==>
                native.videoIndex == old(native.videoIndex) && native.audioIndex == old(native.audioIndex)
      ensures native.videoQueue.queue == old(native.videoQueue.queue)
      ensures var exit := NativePlayer.PlayExitOf(r, native.videoIndex);
              && (mediaInfo == if exit == NativePlayer.Started
                               then Media.Some(NativePlayer.Selection(native.videoIndex, native.audioIndex))
                               else Media.None)
              && (native.hasFmt <==> exit == NativePlayer.Started || (exit == NativePlayer.NoWindow && old(native.hasFmt)))
              && (native.hasVideoCodec == if exit == NativePlayer.Started then true
                                          else if exit in {NativePlayer.NoCodecContext, NativePlayer.ParametersNotCopied,
                                                           NativePlayer.DecoderNotOpened} then false
                                          else old(native.hasVideoCodec))
              && (native.videoQueue.finished == if exit == NativePlayer.Started then false
                                                else old(native.videoQueue.finished))
    {
      mediaInfo := native.Play(r);
      mState := Playing;
    }

    /** pause(p): sets the native pause flag to p, then Paused for true and Playing for
        false, whatever the state before. */
    method Pause(p: bool)
      requires Valid()
      modifies this`mState, native`paused
      ensures Valid()
      ensures mState == Next(old(mState), PauseCall(p))
      ensures mState == (if p then Paused else Playing) && native.paused == p
    {
      native.Pause(p);
      if p {
        mState := Paused;
      } else {
        mState := Playing;
      }
    }

    /** stop: calls nativeStop and sets End. */
    method Stop()
      requires Valid()
      modifies this`mState, native`stopped, native`hasVideoCodec, native`hasFmt
      ensures Valid()
      ensures mState == Next(old(mState), StopCall) && mState == End
      ensures native.stopped && !native.hasVideoCodec && !native.hasFmt
    {
      var _, _, _ := native.Stop();
      mState := End;
    }

    /** seek: calls nativeSeek and ignores its status; mState stays. */
    method Seek(position: real, seekResult: int)
      requires Valid()
      ensures mState == Next(old(mState), SeekCall)
    {
      var _, _ := native.Seek(position, seekResult);
    }

    /** setSpeed: calls nativeSetSpeed and ignores its status; mState stays. */
    method SetSpeed(v: real)
      requires Valid()
      modifies native`speed
      ensures Valid()
      ensures mState == Next(old(mState), SetSpeedCall)
      ensures native.speed == if v > 0.0 then v else old(native.speed)
    {
      var _ := native.SetSpeed(v);
    }

    method GetState() returns (s: PlayerState)
      requires Valid()
      ensures s == mState && s != Seeking
    {
      s := mState;
    }
  }
}
