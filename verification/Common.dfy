/** Failure-compatible results shared by the modules of the project. */
module Common {
  datatype Option<+T> = None | Some(value: T)

  datatype Result<+T, +E> = Ok(value: T) | Err(error: E)

  /** The Python `value or fallback` on an optional string: the empty string counts as absent. */
  function OrElse(value: Option<string>, fallback: string): string
  {
    if value.Some? && value.value != "" then value.value else fallback
  }

  function UpperChar(c: char): char {
    if 'a' <= c <= 'z' then (c as int - 'a' as int + 'A' as int) as char else c
  }

  /** Upper case of ASCII text; other letters stay as they are. */
  function Upper(text: string): string {
    seq(|text|, i requires 0 <= i < |text| => UpperChar(text[i]))
  }

  const LOWER_LETTERS := "abcdefghijklmnopqrstuvwxyz"
  const UPPER_LETTERS := "ABCDEFGHIJKLMNOPQRSTUVWXYZ"

  lemma {:induction false} UpperIsExact(text: string, i: nat)
    requires i < |text|
    ensures |Upper(text)| == |text|
    ensures forall k :: 0 <= k < 26 && text[i] == LOWER_LETTERS[k] ==> Upper(text)[i] == UPPER_LETTERS[k]
    ensures (forall k :: 0 <= k < 26 ==> text[i] != LOWER_LETTERS[k]) ==> Upper(text)[i] == text[i]
  {
    LettersInOrder();
    if 'a' <= text[i] <= 'z' {
      var k := text[i] as int - 'a' as int;
      assert LOWER_LETTERS[k] == text[i];
    }
  }

  lemma {:induction false} LettersInOrder()
    ensures forall k :: 0 <= k < 26 ==> LOWER_LETTERS[k] == ('a' as int + k) as char && UPPER_LETTERS[k] == ('A' as int + k) as char
  {
  }

  function Min(a: int, b: int): int {
    if a <= b then a else b
  }

  function Max(a: int, b: int): int {
    if a <= b then b else a
  }
}
