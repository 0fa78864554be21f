/** NUL-terminated strings in character buffers. */
module CStrings {
  const NUL: char := '\0'

  /** The C string at the start of a memory area: everything before its first NUL. */
  function CString(memory: seq<char>): (s: string)
    ensures |s| <= |memory| && s == memory[..|s|] && NUL !in s
    ensures |s| < |memory| ==> memory[|s|] == NUL
  {
    if memory == [] || memory[0] == NUL then [] else [memory[0]] + CString(memory[1..])
  }

  /** The area holds exactly the C string s, terminator included. */
  ghost predicate Holds(memory: seq<char>, s: string) {
    NUL !in s && |s| < |memory| && memory[..|s|] == s && memory[|s|] == NUL
  }

  lemma {:induction false} HeldIsCString(memory: seq<char>, s: string)
    requires Holds(memory, s)
    ensures CString(memory) == s
  {
    NoNulWithin(memory, s);
    NoNulWithin(memory, CString(memory));
  }

  lemma NoNulWithin(memory: seq<char>, s: string)
    requires NUL !in s && |s| <= |memory| && memory[..|s|] == s
    ensures forall k :: 0 <= k < |s| ==> memory[k] != NUL
  {
    forall k | 0 <= k < |s| ensures memory[k] != NUL {
      assert memory[k] == s[k];
    }
  }
}
