/** Text as HTTP frames it. */
module HttpText {
  type Text = seq<char>

  const CRLF: Text := "\r\n"
  const HEADER_MAX_LENGTH := 8192

  function Concat(texts: seq<Text>): Text {
    if texts == [] then [] else texts[0] + Concat(texts[1..])
  }
}
