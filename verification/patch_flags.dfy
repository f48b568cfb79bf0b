// Patch flags: the bit set a compiled vnode carries to tell the runtime's
// diff which parts of it can change.

module PatchFlags {
  import opened Wrappers
  import opened Strings

  type Flags = bv32

  const TEXT: Flags := 1
  const CLASS: Flags := 2
  const STYLE: Flags := 4
  const PROPS: Flags := 8
  const FULL_PROPS: Flags := 16
  const HYDRATE_EVENTS: Flags := 32
  const STABLE_FRAGMENT: Flags := 64
  const KEYED_FRAGMENT: Flags := 128
  const UNKEYED_FRAGMENT: Flags := 256
  const NEED_PATCH: Flags := 512
  const DYNAMIC_SLOTS: Flags := 1024

  /** The names of the flags a fragment or text call is printed with (the
      `PatchFlagNames` table of the shared utilities). */
  function FlagName(flag: Flags): string {
    if flag == TEXT then "TEXT"
    else if flag == STABLE_FRAGMENT then "STABLE_FRAGMENT"
    else if flag == KEYED_FRAGMENT then "KEYED_FRAGMENT"
    else if flag == UNKEYED_FRAGMENT then "UNKEYED_FRAGMENT"
    else ""
  }

  // The flag's value followed by its name in a block comment, as fragments
  // and text calls print it; the value reads back from the front.
  function Annotated(flag: Flags): (r: string)
    ensures ParseInt(r) == Some(flag as int)
  {
    var tail := " /* " + FlagName(flag) + " */";
    ParseIntOfIntToString(flag as int, tail);
    IntToString(flag as int) + tail
  }

  /** `String(patchFlag)`: the decimal value. */
  function Plain(flag: Flags): (r: string)
    ensures ParseInt(r) == Some(flag as int)
  {
    ParseIntOfIntToString(flag as int, "");
    assert IntToString(flag as int) + "" == IntToString(flag as int);
    IntToString(flag as int)
  }
}
