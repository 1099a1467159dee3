/** The rows of the tournament table (`tournoi_bracket.csv`) once loaded: one
    scheduled match or pause per row, in schedule order. */
module Rows {

  datatype Row = Row(
    time: string,      // "Heure"
    teamA: string,     // "Équipe A"
    teamB: string,     // "Équipe B"
    minutes: string,   // "Durée (min)"
    phase: string,     // "Phase"
    kind: string,      // "Type"
    scoreA: int,       // "Score A"
    scoreB: int,       // "Score B"
    done: bool,        // "Terminé"
    overtime: bool     // "Prolongation"
  )

  const RoundPhase: string := "Ronde"
  const SemiPhase: string := "Demi-finale"
  const FinalPhase: string := "Finale"
  const MatchKind: string := "Match"
  const PauseKind: string := "Pause"

  /** A match row of the given phase. */
  predicate IsMatchOf(r: Row, phase: string)
  {
    r.phase == phase && r.kind == MatchKind
  }
}
