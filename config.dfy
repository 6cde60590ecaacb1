/** The sketch's Settings object: the values the GUI panel edits and the
    simulation reads every frame. */
module Config {

  datatype Settings = Settings(
    animate: bool,
    showDiagnostics: bool,
    drawFlowfield: bool,
    rows: nat,
    columns: nat,
    octaves: int,
    falloff: real,
    xyIncrement: real,
    zIncrement: real,
    count: nat)

  /** The grid must have at least one row and one column (the GUI sliders
      start at 1). */
  predicate ValidSettings(s: Settings) {
    1 <= s.rows && 1 <= s.columns
  }

  /** The values `new Settings()` starts with. */
  function DefaultSettings(): (s: Settings)
    ensures ValidSettings(s)
    ensures s.animate && s.rows == 15 && s.columns == 15 && s.count == 300
  {
    Settings(
      animate := true,
      showDiagnostics := true,
      drawFlowfield := false,
      rows := 15,
      columns := 15,
      octaves := 4,
      falloff := 0.65,
      xyIncrement := 0.05,
      zIncrement := 0.001,
      count := 300)
  }
}
