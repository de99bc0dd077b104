/** What a handler asks the surrounding application to do: show a toast, navigate. */
module Effects {
  import opened Wrappers

  datatype Notice = Notice(title: string, description: string, destructive: bool)

  datatype Outcome = Outcome(notice: Option<Notice>, navigateTo: Option<string>)

  /** The handler returned without doing anything visible. */
  const Silent := Outcome(None, None)

  function Toast(title: string, description: string): Outcome {
    Outcome(Some(Notice(title, description, false)), None)
  }

  function ErrorToast(description: string): Outcome {
    Outcome(Some(Notice("Error", description, true)), None)
  }

  function ToastAndGo(title: string, description: string, path: string): Outcome {
    Outcome(Some(Notice(title, description, false)), Some(path))
  }

  function ErrorAndGo(description: string, path: string): Outcome {
    Outcome(Some(Notice("Error", description, true)), Some(path))
  }
}
