/** The experience tuple recorded per turn and kept in the replay buffer. */
module Experience {

  /** `(string currentState, string nextState, double reward, bool done)`. */
  datatype Transition = Transition(currentState: string, nextState: string, reward: real, done: bool)
}
