/** The objects of `chromiumos-ash/aurade-weston-shell.c` and their fields. */
module ShellObjects {

  /** `struct aurade_shell_surface`. `tree` is its surface tree list, topmost
      first, which counts only while the surface is a root. `depth` bounds the
      length of its parent chain. */
  class Surface {
    var parent: Surface?
    var tree: seq<Surface>
    var output: Output?
    var mapped: bool
    var focusCount: int
    ghost var depth: nat

    constructor ()
      ensures parent == null && tree == [this] && output == null && !mapped && focusCount == 0 && depth == 0
    {
      parent, output, mapped, focusCount, depth := null, null, false, 0, 0;
      tree := [this];
    }
  }

  /** `struct aurade_shell_output`: the root whose tree it shows, if any. */
  class Output {
    var active: Surface?

    constructor ()
      ensures active == null
    {
      active := null;
    }
  }

  /** `struct aurade_shell_seat`: the shell handles one. */
  class Seat {
    var focused: Surface?

    constructor ()
      ensures focused == null
    {
      focused := null;
    }
  }
}
