/** The database driver as both handler modules see it: every call may fail. */
module Driver {

  /** One call to the database driver: it may answer with an error. */
  method DriverCall() returns (ok: bool) {
    ok := *;
  }
}
