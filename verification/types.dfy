/**
 * The value types of the workshop: the catalog records of types.ts, the
 * feedback and status tags each exercise component declares locally, and the
 * four audio cues of the sound hook.
 */
module Types {

  datatype Option<T> = None | Some(value: T)

  /** The cues `playSound` accepts; every class keeps a ghost log of the ones it plays. */
  datatype Sound = Correct | Incorrect | Drag | Drop

  /** The `FeedbackState` of the single-slot and ordered exercises. */
  datatype Feedback = Neutral | Correct | Incorrect

  /** The `status` a categorisation exercise stamps on a placed item. */
  datatype Status = Correct | Incorrect

  function FeedbackOf(isCorrect: bool): Feedback
  {
    if isCorrect then Feedback.Correct else Feedback.Incorrect
  }

  function StatusOf(isCorrect: bool): Status
  {
    if isCorrect then Status.Correct else Status.Incorrect
  }

  /** The cue a handler plays once it has judged a placement. */
  function CueOf(isCorrect: bool): Sound
  {
    if isCorrect then Sound.Correct else Sound.Incorrect
  }

  datatype ClauseType = Independent | Dependent

  datatype SentenceType = Simple | Compound | Complex | CompoundComplex

  /** A concept of the matching exercise; `matchId` names the definition it belongs to. */
  datatype Concept = Concept(id: string, text: string, matchId: string)

  datatype Definition = Definition(id: string, text: string, formula: string)

  datatype ClauseTypeItem = ClauseTypeItem(id: int, text: string, clauseType: ClauseType)

  datatype Sentence = Sentence(id: int, text: string, sentenceType: SentenceType, explanation: string)

  datatype Clause = Clause(id: string, text: string, isIndependent: bool)

  datatype Connector = Connector(id: string, text: string)

  datatype ConnectionProblem = ConnectionProblem(
    id: int,
    clauses: (Clause, Clause),
    correctConnectorIds: seq<string>,
    allConnectors: seq<Connector>,
    explanation: string)

  datatype TileType = ClauseTile | ConnectorTile | PunctuationTile

  datatype SynthesisTile = SynthesisTile(id: string, text: string, tileType: TileType)

  datatype SynthesisProblem = SynthesisProblem(
    id: int,
    goal: SentenceType,
    tiles: seq<SynthesisTile>,
    correctOrder: seq<string>,
    explanation: string)

  // The `id` projections, passed to the generic pool operations.

  function ConceptId(c: Concept): string { c.id }

  function DefinitionId(d: Definition): string { d.id }

  function ItemId(item: ClauseTypeItem): int { item.id }

  function SentenceId(s: Sentence): int { s.id }

  function TileId(t: SynthesisTile): string { t.id }
}
