/** What the form does to the world outside it: the message boxes it
    shows, the HTTP requests it sends and the audio it hands to a device,
    and the answers it gets back. */
module Effects {
  import opened Wrappers

  /** A `MessageBox.Show(text, caption)`. */
  datatype Notice = Notice(text: string, caption: string)

  const ServerUrlMissingText: string := "AIVIS サーバー URL を入力してください。"

  /** Loading the catalog with an empty base address. */
  const LoadServerUrlMissing: Notice := Notice(ServerUrlMissingText, "Info")

  /** Speaking with an empty base address. */
  const SpeakServerUrlMissing: Notice := Notice(ServerUrlMissingText, "Error")

  /** The catalog was read but holds no style. */
  const NoStyles: Notice := Notice("スタイルが見つかりません。", "Warning")

  /** Speaking with no voice model selected. */
  const NoModelSelected: Notice := Notice("モデルが選択されていません。", "Info")

  /** The runtime's message for a null-reference exception. */
  const NullReferenceMessage: string := "Object reference not set to an instance of an object."

  /** Any failure while loading the catalog, with the base address used. */
  function ConnectionError(baseUrl: string, message: string): Notice
  {
    Notice("AivisSpeech Engine に接続できません。\nURL: " + baseUrl + "\n" + message, "Connection Error")
  }

  /** Any failure while synthesising or playing. */
  function SpeakFailed(message: string): Notice
  {
    Notice("発話失敗: " + message, "Error")
  }

  /** A request the form attempts to send to the server (an address
      without a scheme fails before anything is sent), or an attempt to play audio on the
      device at an index of the playback-device list; whether any sound
      came out is the separate `Playback` outcome. */
  datatype Effect =
    | Get(url: string)
    | Post(url: string, body: Option<string>)
    | Play(device: int, audio: seq<bv8>)

  /** The answer to a request: its body, or the message of the exception
      raised by the transport or by `EnsureSuccessStatusCode`. */
  datatype HttpResult<T> = Ok(body: T) | Failed(message: string)

  /** How playback ended: it ran to the end, or an exception (undecodable
      audio, a vanished device) was raised. */
  datatype Playback = Played | PlaybackFailed(message: string)
}
