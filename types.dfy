// The records of the audio library (types.ts) and the values the library
// bookkeeping works on.
module Types {

  datatype Option<+T> = None | Some(value: T)

  /** The prebuilt voices of the speech backend. */
  datatype VoiceName = Zephyr | Puck | Charon | Kore | Fenrir

  /** The coarse gender tag of presets and of analysed reference voices. */
  datatype Gender = Male | Female | Neutral

  datatype VoicePreset = VoicePreset(
    id: string,
    name: string,
    description: string,
    gender: Gender,
    voiceValue: VoiceName)

  /** An object URL; the empty string is the handle of an orphan. */
  type Handle = string

  /** The content of a stored audio blob; its structure is opaque here. */
  type Bytes = seq<bv8>

  /**
   * A library record as it is persisted: a generated clip (GeneratedSpeech)
   * or a reference voice (CustomVoice), each without its `blobUrl`.
   * `description` and `gender` are optional fields of a reference voice.
   */
  datatype Record =
    | Speech(id: string, userId: string, text: string, voiceName: string, createdAt: int)
    | Voice(id: string, userId: string, name: string, createdAt: int,
            description: Option<string>, gender: Option<Gender>)

  /** A record as it is held in memory: the persisted fields plus its handle. */
  datatype Entry = Entry(record: Record, blobUrl: Handle)
}
