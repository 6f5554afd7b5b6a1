/** Values shared by the queues, the native player and the Java player. */
module Media {

  /** One byte of a PCM buffer or of the audio device's output buffer (uint8_t). */
  type byte = x: int | 0 <= x < 256

  datatype Option<T> = None | Some(value: T)

  /** The codec type of one stream of the container (AVMEDIA_TYPE_VIDEO, AVMEDIA_TYPE_AUDIO, anything else). */
  datatype MediaType = VideoType | AudioType | OtherType

  /** A compressed packet as the demuxer delivers it: the index of the stream it belongs to
      and its encoded bytes, which the queues never look into. */
  datatype Packet = Packet(streamIndex: int, payload: seq<byte>)
}
