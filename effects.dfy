/** Observable actions of the toggle command, recorded in order instead of performed. */
module Effects {
  /** Raycast toast styles used by the command. */
  datatype Style = Animated | Failure

  datatype Event =
    | Attempt                          // one invocation of a polled operation (for the controller: one `-t LIST` run)
    | Sleep(ms: nat)                   // a timer delay
    | Toast(title: string, style: Style)
    | Hud(message: string)             // the one-shot heads-up message
    | Subtitle(text: string)           // the command's subtitle in the Raycast list
    | Command(text: string)            // a toggle command sent to the client (`-t USE,...`, `-t STOP USING,...`)
}
