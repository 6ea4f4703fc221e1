/**
 Metadata of evidence and tool results: a JSON object, of which strings and booleans are told
 apart and all else is left opaque. A nil map reads like an empty one.
 */
module Metadata {

  datatype Value = TextValue(text: string) | Flag(flag: bool) | OtherValue(tag: int)

  /** metadata[key].(string), empty if there is none. */
  function MetadataText(metadata: map<string, Value>, key: string): string {
    if key in metadata && metadata[key].TextValue? then metadata[key].text else ""
  }

  predicate MetadataFlag(metadata: map<string, Value>, key: string) {
    key in metadata && metadata[key] == Flag(true)
  }
}
