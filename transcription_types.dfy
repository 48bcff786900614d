/** The records of src/types/transcription.ts that the hooks use. */
module TranscriptionTypes {
  import opened TimeUtils

  /** One time-aligned transcript segment; its times are `MM:SS` or `HH:MM:SS` texts. */
  datatype Segment = Segment(startTime: TimeText, endTime: TimeText, arabic: string, translation: string)

  /** One vocabulary entry; the back end groups them per segment. */
  datatype KeyVocab = KeyVocab(original: string, translation: string)

  /** The estimate stage's answer. */
  datatype EstimateResponse = EstimateResponse(estimatedTranscriptTimeSec: real, estimatedTranscriptTimeFormatted: string)
}
