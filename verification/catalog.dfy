/**
 * Excerpts of the static exercise content, used by the scenarios that replay
 * the documented examples.
 */
module Catalog {
  import opened Types

  const Concepts: seq<Concept> := [
    Concept("c1", "Independent Clause", "d1"),
    Concept("c2", "Dependent Clause", "d2"),
    Concept("c3", "Simple Sentence", "d3"),
    Concept("c4", "Compound Sentence", "d4"),
    Concept("c5", "Complex Sentence", "d5"),
    Concept("c6", "Compound-Complex Sentence", "d6")
  ]

  const Definitions: seq<Definition> := [
    Definition("d1", "A group of words with a subject and verb that expresses a complete thought.", "Subject + Verb"),
    Definition("d2", "A group of words with a subject and verb that does not express a complete thought and cannot stand alone.", "Subordinating Conjunction + Subject + Verb"),
    Definition("d3", "A sentence consisting of only one independent clause.", "Independent Clause"),
    Definition("d4", "A sentence with two or more independent clauses, joined by a coordinating conjunction or a semicolon.", "Independent Clause + , and/but/so + Independent Clause"),
    Definition("d5", "A sentence containing a subordinate clause or clauses.", "Independent Clause + Dependent Clause"),
    Definition("d6", "A sentence having two or more coordinate independent clauses and one or more dependent clauses.", "Independent Clause + Independent Clause + Dependent Clause")
  ]

  /** The first two clauses of the clause-type exercise. */
  const ClauseItems: seq<ClauseTypeItem> := [
    ClauseTypeItem(1, "the moon cast long shadows", Independent),
    ClauseTypeItem(2, "while the city slept", Dependent)
  ]

  /** The first two sentences of the analysis exercise. */
  const Sentences: seq<Sentence> := [
    Sentence(1, "The old library at the end of the street is being renovated.", Simple,
      "This is a SIMPLE sentence because it contains only one independent clause. The subject is 'library' and the verb is 'is being renovated'."),
    Sentence(2, "The project was challenging, but the team worked together to overcome the obstacles.", Compound,
      "This is a COMPOUND sentence. It joins two independent clauses ('The project was challenging' and 'the team worked together...') with the coordinating conjunction ', but'.")
  ]

  const And := Connector("conn1", ", and")
  const But := Connector("conn2", ", but")
  const So := Connector("conn3", ", so")
  const However := Connector("conn5", "; however,")
  const Because := Connector("conn7", "because")
  const Who := Connector("conn8", "who")
  const Yet := Connector("conn11", ", yet")

  /** The first two connector problems. */
  const ConnectionProblems: seq<ConnectionProblem> := [
    ConnectionProblem(1,
      (Clause("c1a", "The sun was setting", true), Clause("c1b", "the sky turned a brilliant orange.", true)),
      ["conn1"],
      [And, But, Because, Who],
      "The two clauses describe events happening together. ', and' is used to join two related ideas or events in sequence."),
    ConnectionProblem(2,
      (Clause("c2a", "She studied diligently for the exam", true), Clause("c2b", "she did not receive the grade she expected.", true)),
      ["conn2", "conn11"],
      [So, But, Yet, However],
      "The second clause presents a result that contrasts with the first. ', but' and ', yet' are both excellent choices to show this opposition.")
  ]

  const T1 := SynthesisTile("s1t1", "The company launched a new product", ClauseTile)
  const T2 := SynthesisTile("s1t2", ", so", ConnectorTile)
  const T3 := SynthesisTile("s1t3", "its stock price increased significantly.", ClauseTile)

  /** The first sentence-construction problem. */
  const SynthesisProblems: seq<SynthesisProblem> := [
    SynthesisProblem(1, Compound, [T1, T2, T3], ["s1t1", "s1t2", "s1t3"],
      "This is a correct COMPOUND sentence. It consists of two independent clauses joined by the coordinating conjunction ', so' to show a result.")
  ]
}
