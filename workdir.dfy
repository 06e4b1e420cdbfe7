/** The virtual working directory: one mutable cell, initially the user's
    home directory, read and overwritten by the commands. */
module Workdir {
  import opened Paths

  class Cell {
    var dir: Path

    /** The cell starts at the home directory, supplied by the caller. */
    constructor (home: Path)
      ensures dir == home
    {
      dir := home;
    }

    /** `getWorkdir()`: the stored directory; reading changes nothing. */
    method Get() returns (d: Path)
      ensures d == dir
    {
      d := dir;
    }

    /** `setWorkdir(d)`: stores `d` as it is, without any check. */
    method Set(d: Path)
      modifies this
      ensures dir == d
    {
      dir := d;
    }
  }
}
