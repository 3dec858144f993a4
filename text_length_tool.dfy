/** The single tool the hand-rolled ReAct agent offers: the length of a text. */
module TextLengthTool {

  /** The name under which the tool is registered (the decorated function's name). */
  const Name: string := "get_text_length"

  /** `get_text_length(text)`: Python's `len` of the string. */
  function GetTextLength(text: string): nat
  {
    |text|
  }

  /** The number of characters of `text`, counted one at a time. */
  function CharacterCount(text: string): nat
  {
    if text == [] then 0 else 1 + CharacterCount(text[1..])
  }

  /** The tool's result is the number of characters in its input. */
  lemma {:induction false} TextLengthCountsCharacters(text: string)
    ensures GetTextLength(text) == CharacterCount(text)
  {
    if text != [] {
      TextLengthCountsCharacters(text[1..]);
    }
  }

  /** The empty text has length zero, and only the empty text does. */
  lemma TextLengthZero(text: string)
    ensures GetTextLength(text) == 0 <==> text == ""
  {
  }

  /** Every character counts, newlines included. */
  lemma TextLengthWithNewlines()
    ensures GetTextLength("\nHello, world!\n") == 15
  {
  }

  /** The length of a concatenation is the sum of the lengths. */
  lemma TextLengthOfConcatenation(a: string, b: string)
    ensures GetTextLength(a + b) == GetTextLength(a) + GetTextLength(b)
  {
  }
}
