// The voice presets offered by the application (constants.ts).
module Constants {
  import opened Types

  const VOICE_PRESETS: seq<VoicePreset> := [
    VoicePreset("v1", "Zephyr", "Calm and steady, great for narrations.", Neutral, Zephyr),
    VoicePreset("v2", "Puck", "Energetic and bright, perfect for social media.", Neutral, Puck),
    VoicePreset("v3", "Charon", "Deep and authoritative voice.", Male, Charon),
    VoicePreset("v4", "Kore", "Soft, pleasant and friendly.", Female, Kore),
    VoicePreset("v5", "Fenrir", "Strong, bold and clear.", Male, Fenrir)
  ]
}
