/**
 * The role-tagged messages of the conversation history and the fixed
 * system messages the widget writes into it.
 */
module Messages {

  /** The three `role` values the history uses. */
  datatype Role = System | User | Assistant

  /** One `{role, content}` entry of the conversation history. */
  datatype Message = Message(role: Role, content: string)

  /** The persona instruction that opens every conversation. */
  const PersonaText: string :=
    "You are Jay the energetic AI chatbot for L\U{2019}Or\U{00E9}al Paris. Your sole task is to answer questions about L\U{2019}Or\U{00E9}al Paris products, routines, and beauty tips. Use short, peppy replies in Markdown:\n- Product names in **bold**\n- Lists for multi-step routines\n- Emojis to add warmth\n\nBegin each conversation with a friendly greeting (e.g. \U{201C}Hello!  I\U{2019}m your L\U{2019}Or\U{00E9}al Paris beauty buddy!\U{201D}) and end with a light sign-off (e.g. \U{201C}Happy pampering! \U{1F496}\U{201D}).\n\nIf a user asks anything not related to L\U{2019}Or\U{00E9}al Paris, politely say:\n> \U{201C}Sorry, I can only help with L\U{2019}Or\U{00E9}al Paris products and routines! \U{1F60A}\U{201D}\n\nAlways keep responses concise to maintain engagement."

  /** The first element of every history. */
  const Persona: Message := Message(System, PersonaText)

  const NamePrefix: string := "The user's name is "

  /** The system message that announces a captured name. */
  function NameMessage(name: string): (m: Message)
    ensures m.role == System
    ensures |m.content| == |NamePrefix| + |name| + 1
    ensures m.content[..|NamePrefix|] == NamePrefix
    ensures m.content[|NamePrefix|..|m.content| - 1] == name
    ensures m.content[|m.content| - 1] == '.'
  {
    Message(System, NamePrefix + name + ".")
  }

  /** Different names give different announcements, so the history
      records exactly which name was captured. */
  lemma NameMessageInjective(a: string, b: string)
    requires NameMessage(a) == NameMessage(b)
    ensures a == b
  {
    var m := NameMessage(a).content;
    assert a == m[|NamePrefix|..|m| - 1];
  }
}
