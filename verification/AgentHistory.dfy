/**
  The message history that the agent sends to the model
  (src-tauri/src/ai_agent.rs): building the user message, running the tool loop,
  trimming, and swapping past images for a note.

  Message content is a sequence of typed blocks.  `Other` stands for every block
  that none of these operations looks into (thinking, for instance).
*/
module AgentHistory {
  import opened Wrappers

  const MAX_TOOL_ROUNDS: nat := 8
  const MAX_HISTORY_MESSAGES: nat := 60
  const PAST_IMAGE_NOTE := "[An image was shown here earlier.]"
  const TOO_MANY_STEPS :=
    "The assistant took too many steps on that request. Try asking more specifically."

  datatype ImageSource = Base64(mediaType: string, data: string) | Remote(url: string)

  datatype ResultContent = Plain(text: string) | Nested(blocks: seq<Block>)

  datatype Block =
    | Text(text: string)
    | Image(source: ImageSource)
    | ToolUse(id: string, name: string, input: string)
    | ToolResult(toolUseId: string, content: ResultContent, isError: bool)
    | Other(kind: string)

  datatype Role = User | Assistant

  datatype Content = Words(text: string) | Blocks(blocks: seq<Block>)

  datatype Message = Message(role: Role, content: Content)

  // ---- Past images ----

  function StripBlock(block: Block): Block {
    match block
    case Image(Base64(_, _)) => Text(PAST_IMAGE_NOTE)
    case ToolResult(id, Nested(inner), isError) => ToolResult(id, Nested(Strip(inner)), isError)
    case _ => block
  }

  function Strip(blocks: seq<Block>): seq<Block> {
    if blocks == [] then [] else [StripBlock(blocks[0])] + Strip(blocks[1..])
  }

  function StripMessage(message: Message): Message {
    if message.role.User? && message.content.Blocks? then
      Message(User, Blocks(Strip(message.content.blocks)))
    else
      message
  }

  function DropImages(messages: seq<Message>): seq<Message> {
    if messages == [] then [] else [StripMessage(messages[0])] + DropImages(messages[1..])
  }

  /** The block is an uploaded image, or a tool result with one somewhere inside. */
  ghost predicate CarriesImage(block: Block) {
    match block
    case Image(source) => source.Base64?
    case ToolResult(_, Nested(inner), _) => exists i :: 0 <= i < |inner| && CarriesImage(inner[i])
    case _ => false
  }

  ghost predicate MessageImageFree(message: Message) {
    message.role.User? && message.content.Blocks? ==>
      forall j :: 0 <= j < |message.content.blocks| ==> !CarriesImage(message.content.blocks[j])
  }

  /** No user message carries an uploaded image at any depth. */
  ghost predicate ImageFree(messages: seq<Message>) {
    forall i :: 0 <= i < |messages| ==> MessageImageFree(messages[i])
  }

  method StripInPlace(blocks: seq<Block>) returns (out: seq<Block>)
    ensures out == Strip(blocks)
    decreases blocks
  {
    out := blocks;
    StripPointwise(blocks);
    for i := 0 to |blocks|
      invariant |out| == |blocks|
      invariant forall k :: 0 <= k < i ==> out[k] == StripBlock(blocks[k])
      invariant forall k :: i <= k < |out| ==> out[k] == blocks[k]
    {
      var block := blocks[i];
      if block.Image? && block.source.Base64? {
        out := out[i := Text(PAST_IMAGE_NOTE)];
      } else if block.ToolResult? {
        if block.content.Nested? {
          var inner := StripInPlace(block.content.blocks);
          out := out[i := block.(content := Nested(inner))];
        }
      }
    }
    assert out == Strip(blocks);
  }

  method DropPastImages(messages: array<Message>)
    modifies messages
    ensures messages[..] == DropImages(old(messages[..]))
  {
    ghost var before := messages[..];
    DropPointwise(before);
    for i := 0 to messages.Length
      invariant forall k :: 0 <= k < i ==> messages[k] == StripMessage(before[k])
      invariant forall k :: i <= k < messages.Length ==> messages[k] == before[k]
    {
      var message := messages[i];
      if message.role.User? {
        match message.content {
          case Blocks(blocks) =>
            var stripped := StripInPlace(blocks);
            messages[i] := Message(User, Blocks(stripped));
          case Words(_) =>
        }
      }
    }
    assert messages[..] == DropImages(before);
  }

  lemma {:induction false} StripPointwise(blocks: seq<Block>)
    ensures |Strip(blocks)| == |blocks|
    ensures forall i :: 0 <= i < |blocks| ==> Strip(blocks)[i] == StripBlock(blocks[i])
  {
    if blocks != [] {
      StripPointwise(blocks[1..]);
    }
  }

  lemma {:induction false} DropPointwise(messages: seq<Message>)
    ensures |DropImages(messages)| == |messages|
    ensures forall i :: 0 <= i < |messages| ==> DropImages(messages)[i] == StripMessage(messages[i])
  {
    if messages != [] {
      DropPointwise(messages[1..]);
    }
  }

  /** Stripping leaves a block alone exactly when it carries no image, and its result never carries one. */
  lemma {:induction false} StripBlockFixesExactlyTheImageFree(block: Block)
    ensures StripBlock(block) == block <==> !CarriesImage(block)
    ensures !CarriesImage(StripBlock(block))
    ensures block.ToolResult? ==> StripBlock(block) == block.(content := StripBlock(block).content)
    decreases block
  {
    match block
    case ToolResult(id, Nested(inner), isError) =>
      StripPointwise(inner);
      forall i | 0 <= i < |inner|
        ensures StripBlock(inner[i]) == inner[i] <==> !CarriesImage(inner[i])
        ensures !CarriesImage(StripBlock(inner[i]))
      {
        StripBlockFixesExactlyTheImageFree(inner[i]);
      }
      if Strip(inner) != inner {
        var i :| 0 <= i < |inner| && Strip(inner)[i] != inner[i];
        assert CarriesImage(inner[i]);
      }
    case _ =>
  }

  lemma StripFixesExactlyTheImageFree(message: Message)
    ensures StripMessage(message) == message <==> MessageImageFree(message)
    ensures MessageImageFree(StripMessage(message))
  {
    if message.role.User? && message.content.Blocks? {
      var blocks := message.content.blocks;
      StripPointwise(blocks);
      forall j | 0 <= j < |blocks|
        ensures StripBlock(blocks[j]) == blocks[j] <==> !CarriesImage(blocks[j])
        ensures !CarriesImage(StripBlock(blocks[j]))
      {
        StripBlockFixesExactlyTheImageFree(blocks[j]);
      }
      if MessageImageFree(message) {
        assert Strip(blocks) == blocks;
      }
    }
  }

  /**
    A history is left alone exactly when it is free of images, and the result always is;
    so dropping twice is dropping once.
  */
  lemma {:induction false} DropImagesFixesExactlyTheImageFree(messages: seq<Message>)
    ensures DropImages(messages) == messages <==> ImageFree(messages)
    ensures ImageFree(DropImages(messages))
  {
    DropPointwise(messages);
    forall i | 0 <= i < |messages|
      ensures StripMessage(messages[i]) == messages[i] <==> MessageImageFree(messages[i])
      ensures MessageImageFree(StripMessage(messages[i]))
    {
      StripFixesExactlyTheImageFree(messages[i]);
    }
    if ImageFree(messages) {
      assert DropImages(messages) == messages;
    }
  }

  lemma {:induction false} DropImagesTwice(messages: seq<Message>)
    ensures DropImages(DropImages(messages)) == DropImages(messages)
  {
    DropImagesFixesExactlyTheImageFree(messages);
    DropImagesFixesExactlyTheImageFree(DropImages(messages));
  }

  /**
    `after` is `before` with every uploaded image in it, at any depth, replaced by the note;
    everything else is as it was.
  */
  ghost predicate OnlyImagesReplaced(before: Block, after: Block)
    decreases before
  {
    if before.Image? && before.source.Base64? then
      after == Text("[An image was shown here earlier.]")
    else if before.ToolResult? && before.content.Nested? then
      && after.ToolResult? && after.toolUseId == before.toolUseId && after.isError == before.isError
      && after.content.Nested? && |after.content.blocks| == |before.content.blocks|
      && forall i :: 0 <= i < |before.content.blocks| ==>
           OnlyImagesReplaced(before.content.blocks[i], after.content.blocks[i])
    else
      after == before
  }

  lemma {:induction false} StripReplacesOnlyImages(block: Block)
    ensures OnlyImagesReplaced(block, StripBlock(block))
    decreases block
  {
    match block
    case ToolResult(_, Nested(inner), _) =>
      StripPointwise(inner);
      forall i | 0 <= i < |inner| ensures OnlyImagesReplaced(inner[i], StripBlock(inner[i])) {
        StripReplacesOnlyImages(inner[i]);
      }
    case _ =>
  }

  /** Dropping images replaces them in user messages, block by block, and changes nothing else. */
  lemma {:induction false} DroppingReplacesOnlyImages(messages: seq<Message>, i: nat)
    requires i < |messages|
    ensures |DropImages(messages)| == |messages|
    ensures var before, after := messages[i], DropImages(messages)[i];
            after.role == before.role
            && if before.role.User? && before.content.Blocks? then
                 && after.content.Blocks? && |after.content.blocks| == |before.content.blocks|
                 && forall j :: 0 <= j < |before.content.blocks| ==>
                      OnlyImagesReplaced(before.content.blocks[j], after.content.blocks[j])
               else
                 after == before
  {
    DropPointwise(messages);
    if messages[i].role.User? && messages[i].content.Blocks? {
      var blocks := messages[i].content.blocks;
      StripPointwise(blocks);
      forall j | 0 <= j < |blocks| ensures OnlyImagesReplaced(blocks[j], StripBlock(blocks[j])) {
        StripReplacesOnlyImages(blocks[j]);
      }
    }
  }
}
