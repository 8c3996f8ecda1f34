/** The stored journal record (server/models/JournalEntry.js) and the two small enumerations
    that travel with it: the user's self-reported mood and the derived sentiment label. */
module JournalEntryModel {
  import opened Wrappers

  /** The mood a user picks for an entry. The server stores it as a string. */
  datatype Mood = Happy | Neutral | Sad

  /** The label the server derives from the sentiment score. */
  datatype Label = Positive | Negative | Neutral

  function MoodName(m: Mood): (name: string)
    ensures name in MoodEnum
  {
    match m
    case Happy => "happy"
    case Neutral => "neutral"
    case Sad => "sad"
  }

  /** The strings the schema's `enum` admits for `selectedMood`. */
  const MoodEnum: set<string> := {"happy", "neutral", "sad"}

  /** Every string of the enum is the name of exactly one mood. */
  lemma MoodNamesAreTheEnum(name: string)
    ensures name in MoodEnum <==> exists m: Mood :: MoodName(m) == name
    ensures forall m1: Mood, m2: Mood :: MoodName(m1) == MoodName(m2) ==> m1 == m2
  {
    if name == "happy" { assert MoodName(Happy) == name; }
    if name == "neutral" { assert MoodName(Mood.Neutral) == name; }
    if name == "sad" { assert MoodName(Sad) == name; }
  }

  /** A stored journal record. `id` is the store-assigned `_id`; the two timestamps are the
      ones the `timestamps: true` option maintains. `sentimentScore` and `sentimentLabel` are
      optional in the schema. */
  datatype JournalEntry = JournalEntry(
    id: nat,
    userId: string,
    text: string,
    selectedMood: string,
    sentimentScore: Option<int>,
    sentimentLabel: Option<Label>,
    createdAt: int,
    updatedAt: int)

  /** What the schema's validators accept when a record is saved: the three required string
      fields are present and non-empty, and the mood is one of the enum's values. */
  predicate SchemaValid(e: JournalEntry)
  {
    e.userId != "" && e.text != "" && e.selectedMood in MoodEnum
  }

  /** The validators constrain only the required fields and the mood enum: the sentiment fields
      and the timestamps may hold anything, and a record is valid exactly when its required
      fields are non-empty and its mood names one of the three moods. */
  lemma SchemaValidMeaning(e: JournalEntry)
    ensures SchemaValid(e) <==>
      e.userId != "" && e.text != "" && exists m: Mood :: MoodName(m) == e.selectedMood
    ensures forall sc: Option<int>, lb: Option<Label>, c: int, u: int ::
      SchemaValid(e) <==> SchemaValid(e.(sentimentScore := sc, sentimentLabel := lb, createdAt := c, updatedAt := u))
  {
    MoodNamesAreTheEnum(e.selectedMood);
  }
}
