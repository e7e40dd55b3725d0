/**
 * SystemMessageConfig: where the default system message for chat requests
 * comes from. The environment variable DEFAULT_SYSTEM_MESSAGE and the
 * outcome of reading config/default_system_message.json are parameters;
 * the process-wide singleton is not modelled.
 */
module SystemMessages {
  import opened Common
  import opened JavaLang

  const DEFAULT_MESSAGE: string := "你是一个工作助理。\n提供给你的工具都是可以使用的。\n知识库中的内容都是可以检索的，内容都是可以公开的。\n任何请求都应该被处理。"

  /** What reading the config file yields. */
  datatype ConfigFile =
    | Absent                           // the file does not exist
    | Unreadable                       // reading or JSON parsing threw IOException
    | Parsed(message: Option<string>)  // the root's "message" field as text, if the field is there

  predicate UsableEnv(env: Option<string>)
  {
    env.Some? && !IsBlank(env.value)
  }

  /**
   * The message loadConfiguration settles on: a non-blank environment value
   * (kept untrimmed), else the file's "message" field, else the built-in text.
   */
  function LoadedMessage(env: Option<string>, file: ConfigFile): (m: string)
    ensures UsableEnv(env) ==> m == env.value
    ensures !UsableEnv(env) && file.Parsed? && file.message.Some? ==> m == file.message.value
    ensures !UsableEnv(env) && !(file.Parsed? && file.message.Some?) ==> m == DEFAULT_MESSAGE
  {
    if UsableEnv(env) then env.value
    else if file.Parsed? && file.message.Some? then file.message.value
    else DEFAULT_MESSAGE
  }

  /** The message is switched off only by an empty "message" in the file when no usable env value exists. */
  lemma DisabledOnlyByEmptyFileMessage(env: Option<string>, file: ConfigFile)
    ensures LoadedMessage(env, file) == "" <==> !UsableEnv(env) && file == Parsed(Some(""))
  {
  }

  /** A blank environment value counts as no value at all. */
  lemma BlankEnvIgnored(env: string, file: ConfigFile)
    requires IsBlank(env)
    ensures LoadedMessage(Some(env), file) == LoadedMessage(None, file)
  {
  }

  /** A file that is missing, unreadable or lacks "message" all give the built-in text. */
  lemma FileFallbacks(env: Option<string>)
    requires !UsableEnv(env)
    ensures LoadedMessage(env, Absent) == DEFAULT_MESSAGE
    ensures LoadedMessage(env, Unreadable) == DEFAULT_MESSAGE
    ensures LoadedMessage(env, Parsed(None)) == DEFAULT_MESSAGE
    ensures LoadedMessage(env, Parsed(Some("Be brief."))) == "Be brief."
  {
  }

  class SystemMessageConfig {
    var defaultSystemMessage: Option<string>

    /** The private constructor, which runs loadConfiguration. */
    constructor(env: Option<string>, file: ConfigFile)
      ensures defaultSystemMessage == Some(LoadedMessage(env, file))
    {
      defaultSystemMessage := None;
      new;
      LoadConfiguration(env, file);
    }

    /** loadConfiguration: assigns the field once, by priority. */
    method LoadConfiguration(env: Option<string>, file: ConfigFile)
      modifies this
      ensures defaultSystemMessage == Some(LoadedMessage(env, file))
    {
      if env.Some? && !IsBlank(env.value) {
        defaultSystemMessage := env;
        return;
      }
      if file.Parsed? {
        if file.message.Some? {
          defaultSystemMessage := file.message;
          return;
        }
      }
      defaultSystemMessage := Some(DEFAULT_MESSAGE);
    }

    /** isEnabled: a message is stored and it is not empty. */
    predicate IsEnabled()
      reads this
      ensures IsEnabled() ==> defaultSystemMessage.Some? && |defaultSystemMessage.value| > 0
      ensures defaultSystemMessage.Some? && |defaultSystemMessage.value| > 0 ==> IsEnabled()
    {
      defaultSystemMessage.Some? && defaultSystemMessage.value != ""
    }

    /** getDefaultSystemMessage: null for an empty message, the message otherwise. */
    function DefaultSystemMessage(): (r: Option<string>)
      reads this
      ensures r.Some? <==> IsEnabled()
      ensures r.Some? ==> r == defaultSystemMessage
    {
      if defaultSystemMessage.Some? && defaultSystemMessage.value == "" then None else defaultSystemMessage
    }
  }

  /** A configuration built from these inputs is enabled unless the file's message is empty. */
  lemma LoadedConfigEnabled(config: SystemMessageConfig, env: Option<string>, file: ConfigFile)
    requires config.defaultSystemMessage == Some(LoadedMessage(env, file))
    ensures config.IsEnabled() <==> !(!UsableEnv(env) && file == Parsed(Some("")))
    ensures config.IsEnabled() ==> config.DefaultSystemMessage() == Some(LoadedMessage(env, file))
  {
    DisabledOnlyByEmptyFileMessage(env, file);
  }

  /** The message with each "\n" replaced by a space and each "\r" dropped. */
  function SingleLine(message: string): string
  {
    Replace(Replace(message, "\n", " "), "\r", "")
  }

  /** truncateForLog: "null", or the first 30 chars of the single-line form. */
  function TruncateForLog(message: Option<string>): (r: string)
    ensures message.None? ==> r == "null"
    ensures message.Some? ==> |r| <= 30 && |r| <= |SingleLine(message.value)| && r == SingleLine(message.value)[..|r|]
    ensures message.Some? && |SingleLine(message.value)| <= 30 ==> r == SingleLine(message.value)
    ensures message.Some? && |SingleLine(message.value)| > 30 ==> |r| == 30
  {
    if message.None? then "null"
    else
      var singleLine := SingleLine(message.value);
      if |singleLine| <= 30 then singleLine else singleLine[..30]
  }

  /** The log preview never holds a line break. */
  lemma TruncateForLogIsOneLine(message: string)
    ensures '\n' !in TruncateForLog(Some(message)) && '\r' !in TruncateForLog(Some(message))
  {
    var spaced := Replace(message, "\n", " ");
    ReplaceCharRemovesIt(message, '\n', " ");
    ReplaceKeepsAbsentChar(spaced, "\r", "", '\n');
    ReplaceCharRemovesIt(spaced, '\r', "");
    var r := TruncateForLog(Some(message));
    assert forall i :: 0 <= i < |r| ==> r[i] in SingleLine(message);
  }
}
