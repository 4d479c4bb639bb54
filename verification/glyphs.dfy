/** The status glyphs the plugin renders, named after their pictures. */
module Glyphs {

  datatype Glyph =
    | Cross        // red cross: missing repository, or a module that is not known to be built
    | Check        // check mark: up to date, or in sync with the upstream branch
    | Hammer       // hammer: module out of date
    | ArrowDown    // behind the upstream branch
    | ArrowUp      // ahead of the upstream branch
    | ArrowUpDown  // diverged from the upstream branch
    | Question     // tracking state unknown
    | Cyclone      // working tree dirty
    | WhiteCircle  // working tree clean
}
