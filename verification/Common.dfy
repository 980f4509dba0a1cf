/** Small vocabulary shared by the models. */
module Common {

  datatype Option<+T> = None | Some(value: T)

  /** Lower case of ASCII characters; other characters are left as they are. */
  function Lower(c: char): char {
    if 'A' <= c <= 'Z' then (c as int + 32) as char else c
  }

  function LowerAll(s: string): (r: string)
    ensures |r| == |s| && forall i :: 0 <= i < |s| ==> r[i] == Lower(s[i])
  {
    if |s| == 0 then "" else [Lower(s[0])] + LowerAll(s[1..])
  }

  /** The character code of a lowercase hexadecimal digit. */
  function HexCode(v: int): (code: int)
    requires 0 <= v < 16
    ensures code == "0123456789abcdef"[v] as int && HexNumber(code) == Some(v)
  {
    if v < 10 then '0' as int + v else 'a' as int + v - 10
  }

  /** The value of a hexadecimal digit in either case. */
  function HexNumber(code: int): (v: Option<int>)
    ensures v.Some? ==> 0 <= v.value < 16
  {
    if '0' as int <= code <= '9' as int then Some(code - '0' as int)
    else if 'a' as int <= code <= 'f' as int then Some(code - 'a' as int + 10)
    else if 'A' as int <= code <= 'F' as int then Some(code - 'A' as int + 10)
    else None
  }
}
