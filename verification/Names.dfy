/** File names as the SCP code checks them. */
module Names {

  predicate IsControl(c: char) { c < '\U{20}' || '\U{7f}' <= c <= '\U{9f}' }

  predicate HasControl(s: string) { exists i | 0 <= i < |s| :: IsControl(s[i]) }

  predicate ValidName(name: string) {
    name != "" && name != "." && name != ".." && '/' !in name && !HasControl(name)
  }

  /** The length of a text in UTF-16 code units. */
  function Utf16Length(s: string): nat {
    if s == "" then 0 else (if s[0] < '\U{10000}' then 1 else 2) + Utf16Length(s[1..])
  }
}
