/** The identity of a step within one reader run (omnicraft/antigravity_native_reader.py, `_step_key`). */
module StepKeys {
  import opened Wrappers
  import opened Steps

  datatype Key = Key(trajectory: Option<string>, index: Option<int>, discriminator: Option<string>)

  function StepKey(s: Step): Key {
    Key(s.trajectoryId, s.index, if s.index.Some? then None else Discriminator(s))
  }
}
