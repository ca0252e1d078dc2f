// The fixed sizes of src/parser.h.
module Limits {
  const MAX_ARGS: nat := 64
  const MAX_COMMANDS: nat := 16
}
