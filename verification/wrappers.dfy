/** The nullable references of the plugin (`TargetManager.Target`, the result of
    `List.Find`, `Client.LocalPlayer`) become an explicit optional value. */
module Wrappers {

  datatype Option<+T> = None | Some(value: T)
}
