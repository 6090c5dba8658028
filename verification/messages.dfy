/** The messages the extension's scripts exchange: the background worker's
    `displaySummary` message to a tab, and the `saveSummary` and
    `requestSummary` messages it answers. */
module ExtensionMessages {
  import opened JsValues

  /** `{ action, summary, keyHighlights, importantWords }`; a property the
      sender leaves out is `Undefined`. */
  datatype Message = Message(action: Value, summary: Value, keyHighlights: Value, importantWords: Value)

  const DisplayAction := "displaySummary"
  const SaveAction := "saveSummary"
  const RequestAction := "requestSummary"
}
