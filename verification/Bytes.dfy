// The unit of memory shared by the models that copy data.
module Bytes {
  type byte = x: int | 0 <= x < 256
}
