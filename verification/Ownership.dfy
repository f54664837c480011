/** The identity that connection ownership attaches to a TCP connection. */
module Ownership {

  datatype Source = Source(service: string, instance: string, pid: int) {
    predicate Known() {
      instance != ""
    }
  }

  const UNKNOWN := Source("", "", 0)
}
