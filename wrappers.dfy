/** Optional values: a namespace attribute that argparse leaves at None is `None` here. */
module Wrappers {

  datatype Option<+T> = None | Some(value: T)
}
