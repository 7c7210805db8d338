/**
 * The transcript entry every parser in backend/transcript_parser.py produces:
 * a time window in seconds, a speaker label and the spoken text.
 */
module Entries {

  datatype Entry = Entry(startTime: real, endTime: real, speaker: string, text: string)

  /** The texts of a list of entries, in order. */
  function Texts(es: seq<Entry>): (r: seq<string>)
    ensures |r| == |es|
    ensures forall i :: 0 <= i < |es| ==> r[i] == es[i].text
  {
    if |es| == 0 then [] else [es[0].text] + Texts(es[1..])
  }
}
